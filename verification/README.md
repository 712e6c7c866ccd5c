# Verification of the TokenSaver plugin toolchain

This Dafny project models the algorithms and protocols of the TokenSaver plugin toolchain and proves what they
promise. SHA-256, Ed25519, base64, JSON and the operating system are taken as given: digests, codecs and parsers
are parameters, and injectivity is proved of what is hashed, not of hashes. Texts are strings with one character
per UTF-8 byte, archives are sequences of bytes, and 64-bit arithmetic is explicit.

Check it with `dafny verify dfyconfig.toml`.

## Parts

- `LineSummary`, `TextLines`, `Actions`, `Caveman`, `Harness`: the two output optimizers. The streaming filter, with
  its mutable window, watermark and early abort, refines a declarative keep set; markers conserve lines.
- `ShiftRegister`, `Crc32`, `Zip`: the package writer, its checksum, and a reader that inverts it.
- `MarkerNames`, `RevocationState`, `RevocationInvariant`, `RevocationSafety`, `RevocationCalls`, `RevocationExposure`,
  `RevocationRollback`: the append-only revocation state as interleaved steps of any number of verifiers, with crashes
  and losses of power, the code of one call, and exactly which states can be rolled back.
- `Texts`, `Fuzz`, `FuzzWorker`, `FuzzEvaluator`, `FuzzEvidence`, `FuzzCertification`, `Confinement`,
  `FuzzCompleteness`: fuzz campaigns from the confined process to the verdict of the stage, and back.
- `Fields`, `SigningMessages`, `DriverEnvironments`, `PolicyPreimages`: length-prefixed encodings and what they bind.
- `SupplyChain`: the walk over a bill of materials, and license and provenance accounting.
- `Framing`, `FramingHeaders`, `FrameStreams`, `Sessions`, `SessionReplies`, `SessionStreams`, `SessionAnswers`,
  `SessionSizes`, `SessionSdks`: frames and sessions of the Go, Python and Rust SDKs, over streams that deliver and
  take bytes in pieces of any size.
- `Assembly`, `Bench`, `BenchReports`: certification reports, latency summaries and benchmark accounting.

## What the proofs found

- The early abort of the line filter never changes its answer, whatever the size of the text; the minimum of 2 KiB
  is not needed for that.
- The repository's README (line 293) says that immutable synchronized markers reject durable rollback. Two runs do not.
  The branch for an equal sequence (`tools/tsp/src/certification_distribution.rs:120-122`) accepts a visible marker
  without synchronising it: if its writer crashed between link and synchronisation and the power then fails, a later
  call accepts an older sequence (`RevocationRollback.EqualBranchRollsBack`). And `ensure_directory` (lines 265-272)
  makes an issuer's directory that nothing ever synchronises into its parent: a loss of power may take it with the
  synchronised marker of an undisturbed call (`RevocationRollback.DirectoryIsLost`).
  `RevocationExposure.RollsBackExactlyWhen` says exactly from which states a rollback can happen, and
  `RevocationSafety.DurableExactlyWhen` which runs stay durable. Where `sync_directory` does nothing (lines 439-442,
  all platforms but Unix), every acceptance depends on the operating system writing the directory in time.
- The worker's evidence can be refused by the evaluator only because the monotonic and the wall clock disagree, because
  the wall clock shows more than seven days, or because of the producer's own texts.
- In version 2 sessions the length cap replaces the response to `initialize` after the session has become initialized
  (`sdk/rust/tokensaver-plugin/src/context.rs:95-126`). That response is always longer than the request around the same
  id, so for every plugin there are ids with which the host sees an error while plugin code runs on the next request:
  `SessionSizes.UnannouncedInitialization`. `Sessions.CallsAnnouncedExactlyWhen` gives the exact condition.
- The error that replaces a long response repeats the id and may be too long itself. Then `write_frame` fails and the
  session ends with that request unanswered, although the request fitted a frame
  (`SessionSizes.FirstAskIsAnsweredExactlyWhen`). Version 1 has the same failure at its own limit.
  `SessionAnswers.AnsweredExactlyWhen` and `SessionAnswers.Version2AnswersExactlyWhen` say when every request is
  answered; ids of ordinary length always are.
- The Go SDK writes a frame's header with one `Fprintf` and ignores how much of it was taken
  (`sdk/go/tokensaverplugin/protocol.go:257-259`); only the payload is written in a loop. Over a sink that takes less
  without reporting an error it leaves a stream that nobody can read and reports success
  (`FrameStreams.GoLosesHeaders`, `SessionAnswers.GoReportsLostResponses`). So framing survives short writes in Python
  and Rust, and in Go exactly if the sink takes each header in one write (`FrameStreams.WholeExactlyWhen`). A sink that
  claims to have taken more than it was given makes Go and Rust panic, and one that answers Go a negative count keeps
  its loop asking (`FrameStreams.Judged`).
- The Python SDK reads the id `1e999` as infinite and cannot write it again: the session ends with nothing written
  (`SessionSizes.InfiniteIdEndsSession`).
- Version 1 sessions answer requests without an id, which section 4.1 of JSON-RPC 2.0 calls notifications and leaves
  unanswered. The model follows the code.
- The Go reader takes a whole header line before it checks the limit (`sdk/go/tokensaverplugin/protocol.go:291-294`);
  the Python and Rust readers cut lines. So what a frame makes a reader take is bounded for these two only
  (`FrameStreams.BoundedExactlyWhen`). The frames they accept are the same but for the rules listed in
  `Framing.Rules` and `Framing.Style`.
- The policy preimage of the Windows driver is injective only because engine versions are three numbers
  (`PolicyPreimages.VersionRuleIsNeeded`), since an engine may be called like an environment variable.
- The check for nondeterministic results in the benchmark cannot fire: results that match the golden ones are equal
  (`BenchReports.RunCase`). Where the bench saturates a total, the checker refuses the report.

## How the parts are modelled

The revocation state is a state machine. A phase says where a call of `record_verified` stands; each step is one
operation on the file system; `Fail` is an error return from any operation, `Crash` the end of a process anywhere,
`PowerLoss` falls back to what is durable: the durable markers of those directories whose own entry is durable, up to
the root of the state. A `Flush` makes one visible marker durable at any time and an `Anchor` the entry of a directory,
because the operating system may. `RevocationCalls` shows that the code, undisturbed, goes through these steps.

Executors, drivers, oracles, clocks, plugins and services are functions from everything they could depend on: an
execution carries its ordinal, so that a stateful executor is covered. An oracle, a driver or a plugin may answer
anything.

The three SDK readers share one loop and differ in `Framing.Rules` (number of lines, line limit, payload limit, how a
partial or an empty line is treated) and `Framing.Style` (how a header line is cut).

A sink answers each write with a count and whether it failed, depending on what was written before; a count that it
cannot have means that nothing was taken. The three writers differ in `FrameStreams.Judged`, `FrameStreams.Pieces` and
`FrameStreams.GoFrame`. What JSON leaves to a runtime, in particular how a received id is written again and whether it
can be, is a `SessionSizes.Dialect`.

## Model

| member | source | states |
|---|---|---|
| Caveman.OptimizeEligibleOutput | examples/caveman/src/main.rs:104-159 | the one-pass filter returns what choosing the keep set, rendering all of it and only then applying the 80% test returns, for every text; if an allocation fails it may pass instead |
| Caveman.FlagIsFinal | examples/caveman/src/main.rs:127-145 | a line that leaves the sixteen-line window carries the flag of the whole text: first ten, last sixteen, or within the context of a line worth keeping |
| Caveman.OldestIsFinal | examples/caveman/src/main.rs:137-145 | what the window gives up is the next line of the keep set, and the rest is still a window |
| Caveman.WatermarkIsForwardContext | examples/caveman/src/main.rs:127-135 | the forward watermark keeps exactly the lines that the context of an earlier line reaches |
| Caveman.AbortIsHarmless | examples/caveman/src/main.rs:137-216 | whenever the size guard trips, the finished output would fail the 80% test; no minimum size of the text is needed |
| Caveman.ReserveIsEnough | examples/caveman/src/main.rs:185-192 | twenty digits hold every count, so no marker outgrows its reserve |
| Caveman.SummaryConservesText | examples/caveman/src/main.rs:104-159 | kept lines and counted markers, put back, are the text; no two markers touch and none is pending at the end |
| Caveman.Filter.EmitLine | examples/caveman/src/main.rs:174-201 | one line onto the output, closing the open run by a marker before a kept line, or the size guard's refusal |
| Caveman.Filter.ReserveOutput | examples/caveman/src/main.rs:203-216 | room is granted exactly within the limit, the address space and the memory that there is |
| Caveman.Filter.Advance | examples/caveman/src/main.rs:116-146 | one turn of the loop keeps window, watermark and written tokens in step with the keep set |
| LineSummary.Conservation | examples/caveman/src/main.rs:137-201 | for every keep set: normal form, exact reconstruction, and kept plus omitted lines are all lines |
| LineSummary.NormalIsUnique | examples/caveman/src/main.rs:174-201 | a summary without empty or adjacent markers is determined by what it expands to |
| LineSummary.CompactIsUnique | examples/caveman/src/main.rs:174-201 | the summary of a keep set is the only normal one |
| TextLines.SegmentsRejoin | examples/caveman/src/main.rs:116-120 | splitting at newlines loses nothing and yields no empty segment |
| TextLines.SegmentsAreLines | examples/caveman/src/main.rs:116 | a newline stands nowhere in a segment but at its end, and every segment but the last ends in one |
| TextLines.SplitIsUnique | examples/caveman/src/main.rs:116 | only one split of the text is of that kind, so that the lines are those of the text |
| TextLines.LinesAreExact | examples/deepseek-harness/src/main.rs:42 | a line is its segment without the newline and, before that, one carriage return |
| TextLines.LineIsDetermined | examples/deepseek-harness/src/main.rs:42 | which determines it |
| Caveman.KeptExactlyWhen | examples/caveman/src/main.rs:121-145 | the keep set, told by numbers: the first ten and last sixteen lines, and what is within three lines of a diagnostic after a failure, or one line of anything else worth keeping |
| Caveman.PreferredNewlineIsExact | examples/caveman/src/main.rs:218-223 | markers end as the first line of the text does |
| Caveman.VisibleLineIsExact | examples/caveman/src/main.rs:117-120 | the classifier sees a segment without its newline and one carriage return |
| Caveman.MarkerIsExact | examples/caveman/src/main.rs:184-192 | the text of a marker, with the number of lines that it stands for |
| Caveman.ProposedExactlyWhen | examples/caveman/src/main.rs:154-159 | the output is proposed exactly if it is at most four fifths of the text, nonempty, without NUL and at most 16 MiB |
| Harness.OptimizeHarnessOutput | examples/deepseek-harness/src/main.rs:41-100 | the two passes over the mark array return what the declarative keep set gives, on the sequence of `lines()` |
| Harness.KeptExactlyWhen | examples/deepseek-harness/src/main.rs:47-71 | the keep set, told by numbers |
| Harness.MarkerIsExact | examples/deepseek-harness/src/main.rs:83-90 | the text of a marker, with the number of lines that it stands for |
| Harness.ProposedExactlyWhen | examples/deepseek-harness/src/main.rs:93-99 | the output, with or without its last newline, is proposed exactly if it is less than four fifths of the text and may be proposed |
| Harness.MarkRange | examples/deepseek-harness/src/main.rs:102-106 | marks exactly the given range of the array, which lies within it wherever it is called |
| Harness.Mark | examples/deepseek-harness/src/main.rs:47-71 | after the first pass the array is the keep set |
| Harness.Write | examples/deepseek-harness/src/main.rs:73-92 | the second pass renders the summary of the marks |
| Harness.SummaryConservesLines | examples/deepseek-harness/src/main.rs:41-100 | the conservation law on `lines()` |
| Harness.FinalNewlineIsPreserved | examples/deepseek-harness/src/main.rs:93-95 | the output ends in a newline exactly if the input does |
| Crc32.Compute | tools/tsp/src/package.rs:501-510 | the nested loops compute the checksum that the lemmas are about |
| Crc32.ChecksumIsTableChecksum | tools/tsp/src/package.rs:501-510 | the branchless loop equals the table-driven algorithm of section 8 of RFC 1952 |
| Crc32.KnownAnswers | tools/tsp/src/package.rs:501-510 | the checksums of no data and of the letter `a` |
| Crc32.StepIsBijective | tools/tsp/src/package.rs:505-508 | every step permutes the 32-bit states |
| Crc32.BurstIsDetected | tools/tsp/src/package.rs:501-510 | equal-length data that differ only inside four consecutive bytes have different checksums |
| Crc32.ChecksumIsAffine | tools/tsp/src/package.rs:501-510 | the checksum is affine over the exclusive or of equal-length data |
| Zip.Format.WriteZip | tools/tsp/src/package.rs:384-445 | the writer with its two buffers succeeds exactly on what ZIP32 and the package limit hold, with this archive |
| Zip.Format.RoundTrip | tools/tsp/src/package.rs:384-445 | a reader after sections 4.3.16, 4.3.12 and 4.3.7 of APPNOTE.TXT recovers names, data, executable bits, order and checksums |
| Zip.Format.ArchiveIsInjective | tools/tsp/src/package.rs:384-445 | two packages never share an archive |
| Zip.Format.ArchiveLength | tools/tsp/src/package.rs:384-445 | the exact length of an archive |
| Zip.Format.RecordPlaces | tools/tsp/src/package.rs:387-431 | every central offset lands on its local header and the directory lies where the end record says |
| Zip.Format.FieldsAreExact | tools/tsp/src/package.rs:393-428 | every field of the two headers of every entry, by its place in the bytes |
| Zip.Format.EndIsExact | tools/tsp/src/package.rs:429-440 | every field of the end record: both counts are those of the entries, and offset and size of the directory lead up to the record itself |
| Zip.WriteEnd | tools/tsp/src/package.rs:429-440 | the end record with count, size and offset of the directory |
| Zip.PackagesRoundTrip | tools/tsp/src/package.rs:384-445 | with the real checksum: packages are read back exactly and no two share an archive |
| Zip.DamageIsNoticed | tools/tsp/src/package.rs:384-445 | a stored file damaged inside four consecutive bytes, and nowhere else, is not read back |
| MarkerNames.ParseOfFileName | tools/tsp/src/certification_distribution.rs:406-417 | every 64-bit sequence is read back from its file name |
| MarkerNames.ParseIsExact | tools/tsp/src/certification_distribution.rs:410-417 | nothing but the canonical twenty-digit name of a 64-bit number is accepted |
| MarkerNames.NamesSortNumerically | tools/tsp/src/certification_distribution.rs:406-408 | byte order of names is numeric order |
| RevocationInvariant.StepKeepsInv | tools/tsp/src/certification_distribution.rs:103-136 | every step, crash and loss of power keeps: own locks and pending files, at most 10000 well-named markers a directory, durable markers within visible ones |
| RevocationInvariant.RunKeepsInv | tools/tsp/src/certification_distribution.rs:103-247 | the invariant holds throughout every interleaving of verifiers |
| RevocationInvariant.LinkTargetIsFree | tools/tsp/src/certification_distribution.rs:219-231 | at the hard link the target does not exist and the pending file is complete |
| RevocationInvariant.ScanNeverTrips | tools/tsp/src/certification_distribution.rs:314-394 | the scan runs into neither the marker limit nor a marker of another issuer, given that hashes do not collide |
| RevocationSafety.MarkersOnlyGrow | tools/tsp/src/certification_distribution.rs:185-247 | only a loss of power takes visible markers away; durable ones stay where the entry of their directory is durable |
| RevocationSafety.HighestNeverDecreases | tools/tsp/src/certification_distribution.rs:103-136 | the markers, and so the highest, only grow between losses of power |
| RevocationSafety.CrashesNeverRollBack | tools/tsp/src/certification_distribution.rs:103-136 | with process crashes anywhere, accepted sequences of an issuer never decrease and stay at most the highest marker |
| RevocationSafety.AcceptanceIsTop | tools/tsp/src/certification_distribution.rs:113-135 | an acceptance is at least as new as every earlier one of its issuer |
| RevocationSafety.DurableExactlyWhen | tools/tsp/src/certification_distribution.rs:110-122 | losses of power included, accepted sequences stay durable exactly when no step accepts in a directory whose entry is not durable, nor, on equality or without directory synchronisation, a marker that is not durable |
| RevocationSafety.DurableRunsNeverRollBack | tools/tsp/src/certification_distribution.rs:103-136 | such runs never accept a rollback |
| RevocationSafety.UntornRunsAreDurable | tools/tsp/src/certification_distribution.rs:224-232 | with directory synchronisation and no crash between link and synchronisation, every acceptance is durable exactly if none comes before the entry of its directory is |
| RevocationRollback.EqualBranchRollsBack | tools/tsp/src/certification_distribution.rs:120-122 | a run that accepts sequence 5 and then sequence 4: the equal branch answers from a marker that was never synchronised |
| RevocationRollback.DirectoryIsLost | tools/tsp/src/certification_distribution.rs:265-272 | an undisturbed run, without crash or failure, that accepts sequence 5, loses the new directory with the power, and accepts sequence 4 |
| RevocationExposure.RollsBackExactlyWhen | tools/tsp/src/certification_distribution.rs:103-136 | from every reachable state, and for hashes that do not collide: some continuation accepts a lower sequence of an issuer exactly if one of its accepted sequences, other than 0, lies above all of its durable markers or the entry of their directory is not durable |
| RevocationExposure.UnexposedIsSafe | tools/tsp/src/certification_distribution.rs:103-136 | where none does, no continuation rolls the issuer back, whatever the hashes |
| RevocationExposure.AcceptsWhatIsLeft | tools/tsp/src/certification_distribution.rs:111-135 | after a loss of power a verifier accepts the highest marker that is left, or sequence 0 where none is |
| RevocationExposure.NoneExposedExactlyWhen | tools/tsp/src/certification_distribution.rs:103-136 | no issuer can be rolled back exactly if a marker that outlives a loss of power backs every accepted sequence other than 0 |
| RevocationCalls.Store.RecordVerified | tools/tsp/src/certification_distribution.rs:103-136 | an undisturbed call goes through these steps and answers and leaves what the verdict says |
| RevocationCalls.Store.ScanHighest | tools/tsp/src/certification_distribution.rs:314-394 | the scan, in any order of the listing, finds the highest marker unless one is foreign |
| RevocationCalls.Store.AppendMarker | tools/tsp/src/certification_distribution.rs:185-247 | pending file, link, synchronisation and cleanup leave one more marker and no pending file |
| RevocationCalls.AcceptedIsNewest | tools/tsp/src/certification_distribution.rs:113-135 | what a call accepts is the newest marker of its directory afterwards |
| RevocationCalls.NewerIsAppended | tools/tsp/src/certification_distribution.rs:113-135 | in an own directory with room, a newer sequence is appended: visible, and durable where directories are synchronised |
| RevocationCalls.OthersChangeNothing | tools/tsp/src/certification_distribution.rs:113-135 | every other call leaves the markers alone, and accepts exactly if the sequence is the highest marker |
| Fuzz.ValidateCorpus | tools/tsp/src/certification_fuzz.rs:387-452 | accepts exactly the corpora with ordered distinct sanitizers and well-formed ordered distinct cases of both classes that plan at most a billion executions |
| Fuzz.ValidateSanitizers | tools/tsp/src/certification_fuzz.rs:407-421 | the loop over the required sanitizers: supported and strictly ascending |
| Fuzz.ValidateCases | tools/tsp/src/certification_fuzz.rs:423-442 | the loop over the cases: well formed, strictly ascending, counted by class |
| Fuzz.PlanIsExact | tools/tsp/src/certification_fuzz.rs:492-519 | the checked plan is refused exactly above a billion executions, and else has the exact counts |
| Fuzz.FittingEngineCovers | tools/tsp/src/certification_fuzz.rs:304-332 | an engine fits exactly if every required sanitizer is active |
| Texts.SearchFinds | tools/tsp/src/certification_fuzz.rs:319-323 | binary search on an ascending list finds exactly its members |
| FuzzWorker.RunCampaign | tools/tsp-certification-worker/src/lib.rs:130-171 | the nested loops with their early stops make the flat walk over the plan, and the counters count it |
| FuzzWorker.Step | tools/tsp-certification-worker/src/lib.rs:136-166 | one execution: deadline, ordinal, request, recording and the two reasons to stop |
| FuzzWorker.Counters.Record | tools/tsp-certification-worker/src/lib.rs:259-298 | every counter that applies grows by one, and none overflows while there is room |
| FuzzWorker.IncrementIf | tools/tsp-certification-worker/src/lib.rs:301-317 | checked increment |
| FuzzCertification.CampaignIsPlanPrefix | tools/tsp-certification-worker/src/lib.rs:130-171 | a completed campaign is a prefix of the repetition-major plan with ordinals 0, 1, 2, ..., ended only by its end, the time or an unreaped process |
| FuzzCertification.ExecutionsAreTold | tools/tsp-certification-worker/src/lib.rs:148-163 | each request of a campaign, field by field: its ordinal is its position, its repetition and case are those of that position, its input is what the case decodes to, its deadline is the smaller of limit and remaining time, and that is what the clock leaves |
| FuzzCertification.OrdinalsAreDistinct | tools/tsp-certification-worker/src/lib.rs:148-163 | no two executions share an ordinal |
| FuzzCertification.InputCountersAreNamed | tools/tsp-certification-worker/src/lib.rs:259-298 | what an execution adds to each counter of executions and inputs |
| FuzzCertification.SafetyCountersAreNamed | tools/tsp-certification-worker/src/lib.rs:259-298 | what it adds to the counters of crashes, hangs, sanitizers and memory |
| FuzzCertification.ViolationCountersAreNamed | tools/tsp-certification-worker/src/lib.rs:259-298 | what it adds to the counters of streams, deadlines and unreaped processes |
| FuzzCertification.EndedPrefixIsCampaign | tools/tsp-certification-worker/src/lib.rs:130-171 | conversely such a prefix is the campaign |
| FuzzCertification.OneUnreaped | tools/tsp-certification-worker/src/lib.rs:163-166 | at most one unreaped process is counted, and only as the last |
| FuzzCertification.InputsWithinPlan | tools/tsp/src/certification_fuzz.rs:473-490 | neither class of inputs exceeds its planned number |
| FuzzCertification.TallyPassesAccounting | tools/tsp/src/certification_fuzz.rs:584-609 | the counters of a campaign satisfy the accounting checks |
| FuzzCertification.WorkerEvidenceIsAccepted | tools/tsp/src/certification_fuzz.rs:124-162 | the evaluator refuses the worker's own report exactly if the two clocks disagree, the wall clock shows more than seven days or the producer is malformed |
| FuzzCertification.RunWorker | tools/tsp-certification-worker/src/lib.rs:101-257 | the worker returns exactly the report of its campaign with the evaluator's verdict |
| FuzzEvaluator.SafetySumIsExact | tools/tsp/src/certification_fuzz.rs:612-630 | the checked sum of the safety counters never overflows after the accounting checks and is zero exactly if all are |
| FuzzEvidence.PassesExactlyWhen | tools/tsp/src/certification_fuzz.rs:124-170 | for evidence of any origin: it is judged exactly if plan, identities, sanitizers, times and accounting are in order, and passes exactly if it is also clean and meets every threshold |
| FuzzEvidence.PlanIsPlanned | tools/tsp/src/certification_fuzz.rs:492-519 | the plan counts every case of a class in every repetition |
| FuzzCertification.PassingIsClean | tools/tsp/src/certification_fuzz.rs:162-170 | a passing verdict is exactly: every valid case accepted, every malformed one rejected, no safety finding, and the policy's thresholds |
| FuzzCertification.PassingIsComplete | tools/tsp-certification-worker/src/lib.rs:130-171 | with a clock that does not run backwards, a passing campaign executed its whole plan unless it ended exactly at its maximum duration |
| FuzzCertification.CleanExactlyWhen | tools/tsp/src/certification_fuzz.rs:162-170 | the counters show a clean campaign exactly if it is one |
| Confinement.ExecuteNative | tools/tsp-certification-confinement/src/lib.rs:281-348 | the answer to an execution; the oracle is asked exactly if no native finding was raised |
| Confinement.FindingsAreExact | tools/tsp-certification-confinement/src/lib.rs:301-322 | a finding is raised exactly for a process that did not exit on its own, in time, within its limits and reaped |
| Confinement.AnswersAreExact | tools/tsp-certification-confinement/src/lib.rs:301-343 | what raises each flag of an answer, and the disposition |
| Confinement.ErrorsAreExact | tools/tsp-certification-confinement/src/lib.rs:281-300 | when an execution is an error in place of an answer |
| Confinement.OracleHasNoSay | tools/tsp-certification-confinement/src/lib.rs:323-343 | after a native finding any other oracle gives the same answer, without a decision |
| Confinement.GoodExactlyWhenConfined | tools/tsp-certification-confinement/src/lib.rs:281-382 | an execution counts as good exactly if its process was confined and judged as its case demands |
| Confinement.PassingStageIsConfined | tools/tsp-certification-confinement/src/lib.rs:281-382 | across executor, worker and evaluator: a stage passes exactly if every execution was so confined and the policy is met |
| FuzzCompleteness.PassesExactlyWhenWellRun | tools/tsp/src/certification_fuzz.rs:124-170 | where checks, coverage, clocks and producer are in order and time does not run out, the stage passes exactly if every planned execution is answered as its case demands |
| FuzzCompleteness.PassesExactlyWhenConfined | tools/tsp-certification-confinement/src/lib.rs:281-382 | the same of the confined processes behind the executor: the whole plan, each confined and rightly judged, is necessary and enough |
| FuzzCompleteness.RunsThrough | tools/tsp-certification-worker/src/lib.rs:130-171 | such a campaign runs through its whole plan |
| FuzzCompleteness.WholePlanInputs | tools/tsp/src/certification_fuzz.rs:492-519 | a whole plan has the planned number of inputs of either class, so a valid policy never demands more |
| FuzzCompleteness.SomePluginPasses | tools/tsp-certification-worker/src/lib.rs:101-257 | there is a plugin that passes: the premises of these results can be met |
| Fields.ReadWordIsExact | tools/tsp/src/certification_trust.rs:503-505 | reading eight big-endian bytes is the exact inverse of writing them |
| Fields.DecodeEncoded | tools/tsp/src/certification_trust.rs:498-505 | decoding gives back the parts of a message, whatever follows |
| Fields.DecodedWasEncoded | tools/tsp/src/certification_trust.rs:498-505 | nothing but an encoded message decodes |
| Fields.DomainsSeparate | tools/tsp/src/certification_trust.rs:23-24 | messages with different first fields differ |
| Fields.TextsAreDetermined | tools/tsp/src/identity.rs:37-50 | length-prefixed texts are determined by their bytes without a count |
| SigningMessages.Output.AppendField | tools/tsp/src/certification_trust.rs:498-501 | length and bytes are appended |
| SigningMessages.EnvelopeSigningMessage | tools/tsp/src/certification_trust.rs:209-220 | the envelope message, built by appending |
| SigningMessages.RevocationListSigningMessage | tools/tsp/src/certification_trust.rs:222-239 | the list message with its count and entries |
| SigningMessages.ArtifactSigningMessage | tools/tsp/src/certification_artifact.rs:210-226 | the artifact-signature message |
| SigningMessages.ReleasePreimage | tools/tsp/src/identity.rs:37-50 | the preimage of a release id |
| SigningMessages.EnvelopeIsExact | tools/tsp/src/certification_trust.rs:209-220 | envelope messages have an exact inverse |
| SigningMessages.ListIsExact | tools/tsp/src/certification_trust.rs:222-239 | revocation-list messages of any length have an exact inverse |
| SigningMessages.ArtifactIsExact | tools/tsp/src/certification_artifact.rs:210-226 | artifact-signature messages have an exact inverse |
| SigningMessages.ReleaseIsExact | tools/tsp/src/identity.rs:37-50 | release preimages have an exact inverse |
| SigningMessages.EnvelopesAreBound | tools/tsp/src/certification_trust.rs:209-220 | equal messages mean equal envelopes but for the signature |
| SigningMessages.ListsAreBound | tools/tsp/src/certification_trust.rs:222-239 | equal messages mean equal lists but for the signature |
| SigningMessages.ArtifactsAreBound | tools/tsp/src/certification_artifact.rs:210-226 | equal messages mean equal documents but for the signature |
| SigningMessages.ReleasesAreBound | tools/tsp/src/identity.rs:37-50 | equal preimages mean equal releases |
| SigningMessages.KindsAreSeparate | tools/tsp/src/certification_trust.rs:23-24 | messages of different kinds are never equal |
| SigningMessages.DocumentsAreBound | tools/tsp/src/certification_trust.rs:209-239 | with 64-bit words and the real domains: each kind of message determines what is signed, but for the signature, and release preimages the release |
| SigningMessages.KindsAreBound | tools/tsp/src/certification_trust.rs:23-24 | with 64-bit words and the real domains: messages of the four kinds are never equal |
| DriverEnvironments.ValidateEnvironment | tools/tsp-certification-confinement-linux/src/linux_driver.rs:373-404 | accepts exactly the allowlisted, nonempty, bounded environments, unchanged |
| DriverEnvironments.CanonicalEnvironment | tools/tsp-certification-confinement-windows/src/windows_driver.rs:426-462 | upper-cases, refuses duplicates, sorts and requires three names |
| DriverEnvironments.CanonicalIsSorted | tools/tsp-certification-confinement-windows/src/windows_driver.rs:426-462 | the result is the given entries in upper case, sorted, with the required names |
| DriverEnvironments.CanonicalIsCanonical | tools/tsp-certification-confinement-windows/src/windows_driver.rs:426-462 | letter case of names and order of entries make no difference |
| DriverEnvironments.UpperIsExact | tools/tsp-certification-confinement-windows/src/windows_driver.rs:426-462 | two names have one upper case exactly if they differ in letter case alone |
| DriverEnvironments.RootIsAllowed | tools/tsp-certification-confinement-windows/src/windows_driver.rs:426-462 | `SystemRoot` is an allowed name |
| PolicyPreimages.LinuxPreimage | tools/tsp-certification-confinement-linux/src/linux_driver.rs:406-438 | the loops feed these texts to the hash |
| PolicyPreimages.WindowsPreimage | tools/tsp-certification-confinement-windows/src/windows_driver.rs:509-545 | the loops feed these texts to the hash |
| PolicyPreimages.LinuxPreimageIsInjective | tools/tsp-certification-confinement-linux/src/linux_driver.rs:406-438 | valid Linux configurations share a preimage only if they are equal |
| PolicyPreimages.WindowsPreimageIsInjective | tools/tsp-certification-confinement-windows/src/windows_driver.rs:509-545 | valid Windows configurations share a preimage only if they are equal |
| PolicyPreimages.LinuxEnvironmentsEndTogether | tools/tsp-certification-confinement-linux/src/linux_driver.rs:427-436 | where one environment ends and the sanitizers begin, no other can go on |
| PolicyPreimages.WindowsEnvironmentsEndTogether | tools/tsp-certification-confinement-windows/src/windows_driver.rs:521-529 | the same, although an engine id may be an environment name |
| PolicyPreimages.VersionRuleIsNeeded | tools/tsp-certification-confinement-windows/src/windows_driver.rs:386-400 | two different configurations with one preimage, were the engine version free |
| PolicyPreimages.VersionsAreNoSanitizers | tools/tsp-certification-confinement-windows/src/windows_driver.rs:386-406 | a three-number version is never a sanitizer name |
| PolicyPreimages.DriversAreSeparate | tools/tsp-certification-confinement-windows/src/windows_driver.rs:22-34 | configurations of different drivers never share a preimage |
| PolicyPreimages.PreimagesAreBound | tools/tsp-certification-confinement-windows/src/windows_driver.rs:22-34 | with 64-bit words and the two real policies: a preimage determines the driver and its validated configuration |
| PolicyPreimages.WideBytesAreInjective | tools/tsp-certification-confinement-windows/src/windows_driver.rs:538-545 | UTF-16 paths are determined by their bytes |
| PolicyPreimages.AttemptsAreDistinct | tools/tsp-certification-confinement/src/lib.rs:384-396 | attempt ids of different executions have different preimages |
| SupplyChain.CollectComponents | tools/tsp/src/certification_supply_chain.rs:575-596 | the explicit-stack walk returns the top-level components and then the root, each before its own, and refuses exactly walks over 100000 components, without identity or with a repeated bom-ref |
| SupplyChain.PopAndPush | tools/tsp/src/certification_supply_chain.rs:581-594 | popping a component and pushing its own in reverse keeps the walk |
| SupplyChain.OrderIsComplete | tools/tsp/src/certification_supply_chain.rs:575-596 | the walk meets exactly the components of the whole bill |
| SupplyChain.AnalyzeLicenses | tools/tsp/src/certification_supply_chain.rs:499-573 | the counters are exact; licensed and missing, and provenance and missing, add up to all components |
| SupplyChain.ClassifyIds | tools/tsp/src/certification_supply_chain.rs:519-535 | denied and unknown ids of one component |
| SupplyChain.SpdxIdsAreValid | tools/tsp/src/certification_supply_chain.rs:702-709 | exactly the valid ids of the license choices are looked at |
| SupplyChain.ListsAreSets | tools/tsp/src/certification_supply_chain.rs:421-445 | binary search decides membership, and no id is both allowed and denied |
| SupplyChain.LicenseVerdictIsExact | tools/tsp/src/certification_supply_chain.rs:311-315 | the verdict holds exactly if every component is compliant and there are not too many |
| SupplyChain.EvaluateLicenses | tools/tsp/src/certification_supply_chain.rs:275-315 | from the bill to the verdict, over every component of the tree |
| SupplyChain.EvaluateSbom | tools/tsp/src/certification_supply_chain.rs:172-225 | the SBOM stage passes exactly if every component has a SHA-256, a valid SPDX id and a package URL |
| SupplyChain.LicensesImplySbom | tools/tsp/src/certification_supply_chain.rs:311-315 | a bill whose licenses pass also passes as an SBOM |
| Framing.EverySdkReads | sdk/python/tokensaver_plugin/__init__.py:344-382 | each SDK reads back exactly the payloads that any of them wrote, and then the end of the stream |
| Framing.FrameIsRead | sdk/go/tokensaverplugin/protocol.go:287-334 | a written frame is read back wherever it stands and whatever follows |
| FramingHeaders.FrameWithOthersIsRead | sdk/go/tokensaverplugin/protocol.go:287-334 | a frame with other header lines before and behind the length is read back, as long as its header keeps within the limits |
| FramingHeaders.OtherIsPassed | sdk/go/tokensaverplugin/protocol.go:311-333 | well-formed lines of another name say nothing of the length |
| FramingHeaders.SecondLength | sdk/rust/tokensaver-plugin/src/context.rs:26-58 | a second length is refused by the Rust reader and taken by the other two |
| FramingHeaders.TruncatedIsBad | sdk/rust/tokensaver-plugin/src/context.rs:26-58 | a frame cut short anywhere behind its first byte is neither a frame nor the end of the stream |
| FramingHeaders.LengthIsExact | sdk/python/tokensaver_plugin/__init__.py:405-409 | a length is exactly digits behind at most one sign |
| FramingHeaders.KnownFrame | sdk/rust/tokensaver-plugin/src/context.rs:60-68 | a frame, byte by byte |
| Framing.HeaderIsParsed | sdk/python/tokensaver_plugin/__init__.py:366-381 | the written header line gives the length, under either way of trimming |
| Framing.DigitsParse | sdk/python/tokensaver_plugin/__init__.py:405-409 | printing and parsing of the length |
| Framing.FrameIsBounded | sdk/rust/tokensaver-plugin/src/context.rs:26-58 | no stream yields an empty or oversized payload or a header over 8 KiB |
| FrameStreams.ReadFrame | sdk/python/tokensaver_plugin/__init__.py:344-382 | the header loop reads what the stream holds, however the bytes arrive, and stops exactly where the stream says, within the header bounds where lines are cut |
| FrameStreams.JudgeLine | sdk/go/tokensaverplugin/protocol.go:287-334 | one header line, and at the end of a stream one without its end, which Rust refuses and the others still look at |
| FrameStreams.ReadExact | sdk/python/tokensaver_plugin/__init__.py:385-402 | fills the payload from chunks of any size |
| FrameStreams.WriteAll | sdk/python/tokensaver_plugin/__init__.py:332-341 | the write loops of the three SDKs: what the sink takes is the beginning, nothing is lost or repeated, and the loop ends as the SDK judges the sink's answers |
| FrameStreams.WriteFrame | sdk/python/tokensaver_plugin/__init__.py:309-329 | for every sink, exactly what arrives of a frame and how writing ends: Python and Rust write header and payload in loops, and a payload that does not fit leaves nothing |
| FrameStreams.WriteGoFrame | sdk/go/tokensaverplugin/protocol.go:249-285 | the Go SDK writes the header once, ignores how much of it was taken, and then writes the payload in a loop |
| FrameStreams.WholeExactlyWhen | sdk/go/tokensaverplugin/protocol.go:257-262 | a frame that is reported as written is on the stream as a whole exactly if, in Go, the sink took the whole header in that one write |
| FrameStreams.GoLosesHeaders | sdk/go/tokensaverplugin/protocol.go:257-262 | into a sink that takes one byte at a time Go writes the letter C and the payload and reports success, and no SDK can read that |
| FrameStreams.WholeLineIsTaken | sdk/go/tokensaverplugin/protocol.go:291-294 | where lines are not cut, a line of any length is taken whole and then refused |
| FrameStreams.BoundedExactlyWhen | sdk/go/tokensaverplugin/protocol.go:287-334 | what one frame makes a reader take is bounded on all streams exactly if lines are cut, and then by the header limit and one line or payload |
| FrameStreams.OnlyGoIsUnbounded | sdk/go/tokensaverplugin/protocol.go:291-294 | the Python and Rust readers are bounded by the header limit and their largest payload, the Go reader by nothing |
| FrameStreams.WillingTakesFrames | sdk/python/tokensaver_plugin/__init__.py:332-341 | a sink that always takes something, no more than it is given, and reports no error never makes a writer fail |
| SessionStreams.Serve | sdk/go/tokensaverplugin/protocol.go:69-161 | the session loop of each SDK: exactly the calls of the trace and what its writer puts on the stream for each response, up to the first that does not fit a frame or that it does not get rid of, and how the session ended |
| SessionStreams.Turn | sdk/rust/tokensaver-plugin/src/context.rs:79-127 | one request: its step is performed, and the session goes on, closes, is refused or ends on a response that does not get through |
| Sessions.Version1IsSafe | sdk/go/tokensaverplugin/protocol.go:69-161 | plugin code runs only after an announced initialization, and each request before the end is owed one response with its id, in order |
| Sessions.Version2IsSafe | sdk/rust/tokensaver-plugin/src/context.rs:70-129 | the same for version 2, with notifications owed nothing and at most one announced initialization; calls are announced exactly under the condition below |
| SessionReplies.Version1Tells | sdk/go/tokensaverplugin/protocol.go:79-161 | every response of a version 1 trace is the one that its request and what the plugin made of it call for, and what the plugin is called with is what was asked |
| SessionReplies.Version2Tells | sdk/rust/tokensaver-plugin/src/context.rs:79-126 | the same for the service in version 2, with the replacement of responses that are too long |
| Sessions.CodeRunsAfterInitialize | sdk/python/tokensaver_plugin/__init__.py:113-172 | calls come after the response that announced the initialization |
| Sessions.OwedIdsAreAnswered | sdk/python/tokensaver_plugin/__init__.py:113-172 | responses are exactly those owed, in order |
| Sessions.NothingFollowsTheEnd | sdk/rust/tokensaver-plugin/src/context.rs:85-87 | what arrives after the end of a session changes nothing |
| Sessions.CallsAnnouncedExactlyWhen | sdk/rust/tokensaver-plugin/src/context.rs:88-126 | for every list of requests: plugin code runs only after the host was told of the initialization exactly if the response to the first offering `initialize` fits, or no later request asks for plugin code |
| SessionSizes.InitializeIsToldExactlyWhen | sdk/rust/tokensaver-plugin/src/context.rs:91-126 | the response to `initialize` is five bytes and the plugin's texts longer than the request around the same id, and the error that replaces it is shorter |
| SessionSizes.UnannouncedInitialization | sdk/rust/tokensaver-plugin/src/context.rs:91-126 | so for every plugin there are ids whose `initialize` is received, answered by an error and followed by plugin code |
| SessionAnswers.AnsweredExactlyWhen | sdk/rust/tokensaver-plugin/src/context.rs:117-126 | the SDK reports all owed ids as answered exactly if everything takes place; over a sink that takes everything they are answered, by whole frames in order, exactly if every response fits and, in Go, the sink takes each header in one write |
| SessionAnswers.ArrivedExactlyWhen | sdk/go/tokensaverplugin/protocol.go:249-269 | what an SDK reports as written is the stream exactly if, in Go, the headers arrived |
| SessionAnswers.GoReportsLostResponses | sdk/go/tokensaverplugin/protocol.go:257-262 | over a sink that takes one byte at a time a Go session reports every response as written and none arrives as it should |
| SessionAnswers.Version1AnswersExactlyWhen | sdk/go/tokensaverplugin/protocol.go:249-269 | the same for version 1, under that condition on headers for Go and without it for Python |
| SessionAnswers.Version2AnswersExactlyWhen | sdk/rust/tokensaver-plugin/src/context.rs:123-126 | in version 2 exactly if for each owed id the response or the error that replaces it fits |
| SessionSizes.FirstAskIsAnsweredExactlyWhen | sdk/rust/tokensaver-plugin/src/context.rs:60-126 | a request with nothing but an id fits a frame up to 1048553 bytes of id as received, and is answered up to 1048500 bytes of id as written |
| SessionSizes.ShortIdsAreAnswered2 | sdk/rust/tokensaver-plugin/src/context.rs:60-126 | ids of up to 1048494 bytes, as the SDK writes them, are always answered in version 2, whatever the service does |
| SessionSizes.BareRequestIsAnsweredExactlyWhen | sdk/go/tokensaverplugin/protocol.go:249-269 | version 1 has the same failure at its own limit, in Go and Python, and Go only answers where the header arrives |
| SessionSizes.ShortIdsAreAnswered1 | sdk/go/tokensaverplugin/protocol.go:194-269 | ids of up to 2700000 bytes, as the SDK writes them (Go escapes `<`, `>` and `&`, Python what is not ASCII), are always answered in version 1, whatever the plugin proposes, exactly as long as, in Go, the headers arrive |
| SessionSizes.UnwritableIdsAreNotAnswered | sdk/python/tokensaver_plugin/__init__.py:309-321 | an id that cannot be written again is never answered, over whatever sink |
| SessionSizes.InfiniteIdEndsSession | sdk/python/tokensaver_plugin/__init__.py:309-321 | the id `1e999`, which Python reads as infinite, ends the Python session with nothing written |
| SessionSizes.TextsOfVersion1 | sdk/go/tokensaverplugin/protocol.go:215-247 | the texts in which the Go and Python SDKs write these responses |
| SessionSdks.ServeGo | sdk/go/tokensaverplugin/protocol.go:69-161 | the Go session under its own rules and writer: safe, and every owed id answered exactly if all responses fit and the headers arrive |
| SessionSdks.ServePython | sdk/python/tokensaver_plugin/__init__.py:96-172 | the Python session under its own rules, writer and texts: every owed id answered exactly if every response can be written and fits |
| SessionSdks.ServeRust | sdk/rust/tokensaver-plugin/src/context.rs:70-129 | the Rust session under its own rules and writer, with the announcement of calls as an equivalence where everything is answerable |
| Sessions.Version2InitializesOnce | sdk/rust/tokensaver-plugin/src/context.rs:91-102 | at most one initialization is announced |
| SessionAnswers.HostReadsResponses | sdk/rust/tokensaver-plugin/src/context.rs:60-68 | over a sink that takes everything, in Go headers included, the host reads back exactly the responses that took place, in order, and then the end of the stream |
| SessionStreams.Respond | sdk/rust/tokensaver-plugin/src/context.rs:117-126 | a response is written as the SDK writes frames, and where that fails the session ends |
| Assembly.Assemble | tools/tsp/src/certification_pipeline.rs:215-288 | the report of the documents, refused exactly if they do not assemble |
| Assembly.ReadStages | tools/tsp/src/certification_pipeline.rs:247-275 | the loop over documents and requirements |
| Assembly.ValidateContract | tools/tsp/src/certification.rs:173-255 | accepts exactly the reports that meet the contract |
| Assembly.ScanChecks | tools/tsp/src/certification.rs:201-234 | the loop over the checks with its set, its list and the first failure |
| Assembly.AssembledMeetsContract | tools/tsp/src/certification_pipeline.rs:278-287 | the contract check at the end of the assembly can only find fault with the authority |
| Assembly.AssembledIsComplete | tools/tsp/src/certification_pipeline.rs:278-287 | `ok` exactly if all stages are, and accepted by the success validator exactly then |
| Assembly.LevelsAccumulate | tools/tsp/src/certification.rs:76-103 | the first documents of an accepted list assemble at the lower level, with the first checks |
| Assembly.LowerLevelsAreFree | tools/tsp/src/certification_pipeline.rs:704-740 | below the third level no stages have to be bound together |
| Assembly.AcceptedIsBound | tools/tsp/src/certification_pipeline.rs:704-740 | of an assembled third-level report: admin metadata was made from the validated manifest, and licenses reviewed against the generated SBOM |
| Assembly.ChecksRepeatStages | tools/tsp/src/certification_pipeline.rs:247-287 | a check of the report repeats its stage, with the digest of its document |
| Assembly.StagesHaveReferences | tools/tsp/src/certification_pipeline.rs:704-740 | the bindings never look for a reference that is not there |
| Assembly.StableRulesAreTokens | tools/tsp/src/certification_pipeline.rs:98-117 | every stable rule is a token |
| Assembly.AssembleCertification | tools/tsp/src/certification_pipeline.rs:215-288 | the assembly with its own rules: `ok` exactly if all stages are, and accepted by the success validator exactly then |
| Bench.SummaryIsExact | tools/tsp/src/bench.rs:212-225 | latency summaries are nearest-rank on the samples, bounded by their extremes, and satisfy `valid_latency` |
| Bench.PercentileIsNearestRank | tools/tsp/src/bench.rs:227-230 | the percentile is a sample; at least that share of the samples is at most as large, and less than that share is smaller |
| Bench.NearestRankIsUnique | tools/tsp/src/bench.rs:227-230 | no other value is the percentile |
| BenchReports.BenchPlugin | tools/tsp/src/bench.rs:70-201 | a report exactly if all runs are golden, with saturated totals |
| BenchReports.ActionsAreCounted | tools/tsp/src/bench.rs:110-160 | the samples of an action are the iterations of its fixtures |
| BenchReports.RunCase | tools/tsp/src/bench.rs:110-160 | the loop over the iterations of a case; its check for unstable results never fires |
| BenchReports.CheckAccounting | tools/tsp/src/certification_pipeline.rs:358-482 | the checker accepts exactly reports whose totals are those of their cases and fit 64 bits |
| BenchReports.CheckCases | tools/tsp/src/certification_pipeline.rs:382-454 | the loop over the cases with its checked sums |
| BenchReports.BenchPassesExactlyWhen | tools/tsp/src/certification_pipeline.rs:358-482 | the checker accepts the bench's report exactly if the fixtures are sound and no total overflows |
| BenchReports.BasisPointsAreExact | tools/tsp/src/certification_pipeline.rs:500-513 | savings in basis points are the exact share, rounded down |

## Left out

- Word classifiers and eligibility of the optimizers: `line_importance`, `is_summary`, `is_diagnostic` and the eligibility checks are parameters or are not called; nothing in the proofs depends on them.
- `insert_file`, `ensure_package_bounds` and the collection of package files: the writer is proved for every list of entries, in whatever order the map yields them.
- Capacity hints and reallocation of buffers, except that an allocation may fail in the line filter.
- Directory creation and symbolic-link checks of the revocation store, marker contents beyond issuer and sequence, and lock timeouts.
- SHA-256, Ed25519, base64, JSON parsing and HTTPS retrieval: parameters, or not part of this model.
- The texts of error messages, details and remediations; several error kinds are one refusal.
- Native kernels: an observation is an arbitrary record. The macOS policy digest, catalog assembly, admin metadata, artifact trust decisions and the reproducible-build evaluator are not part of this model.
- Floating-point percentages of benchmark reports; only the integer accounting is modelled.
- Benchmark texts, identity and duration checks of `validate_benchmark_report`, and reading of fixtures from disk.
- SBOM identity binding and the comparison of reports with recomputed metrics.
- Spaces beyond ASCII around header names and values, headers with more than 4300 digits in Python, and JSON inside the payloads; a request arrives as what it decodes to.
- FuzzCertification.RunWorker: of the checks of the finished stage, those on the formatted detail text are not modelled.
- Confinement.ExecuteNative: profile validation at construction and coverage measurement are not modelled; a profile is compared with the accepted one at each execution.
- RevocationCalls.Store.RecordVerified: a call that nothing disturbs; error returns, crashes and other verifiers are the steps `Fail`, `Crash` and the interleaving of `RevocationState`, and directory creation and link checks are not modelled.
- RevocationCalls.Store.ScanHighest: read errors and entries that are no marker files are not modelled; a foreign marker is.
- RevocationCalls.Store.AppendMarker: failing writes, links and synchronisations are the step `Fail` of `RevocationState`.
- SupplyChain.EvaluateLicenses: the binding of the bill to the subject and the comparison with a submitted report are not modelled.
- SupplyChain.EvaluateSbom: policy validation, the binding to the subject and the comparison with a submitted report are not modelled.
- BenchReports.BenchPlugin: fixtures are given, and texts and percentages of the report are not modelled.
- BenchReports.CheckAccounting: the checks of texts, identity, duration and percentages are not modelled.
- Sessions.Version2IsSafe: that calls follow an announced initialization is stated with its exact condition, because without it the claim is false of the code.
- SessionStreams.Serve: JSON is given as a decoder and an encoder; failures to flush and writes that an interrupt makes Rust repeat are not modelled.
- SessionSizes.UnannouncedInitialization: stated for ids that are written as they were received.
