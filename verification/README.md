# A model of the agent workstation gateway

A gateway runs commands that a remote control plane has accepted, on a workstation, under an account of its own.
A broker reads one request, authorizes it against the installed configuration, runs it (in the foreground, or as a
background process), collects the artifacts it asked for, and streams report, output and artifacts back. A client
stages that stream beside its final path and publishes it whole, or removes it whole. An installer creates the
accounts, directories and services all of this rests on, or takes them back.

The project proves that these parts keep their promises together. `dafny verify dfyconfig.toml` checks it.

## How it is arranged

| file | what it models |
|---|---|
| `Segments.dfy`, `Sorting.dfy` | splitting and joining paths; lexicographic order and sorting |
| `ArtifactPattern.dfy` | the two memoised glob searches against their declarative readings |
| `Protocol.dfy` | the records of protocol version 1 and their validators |
| `OutputCapture.dfy` | bounded, digested capture of a stream |
| `ExecutionRun.dfy` | one foreground run, from plan to bound report, and what preflight lets through |
| `LinuxCollector.dfy` | the pruning walk that selects artifacts |
| `HelperProtocol.dfy` | what the collecting helper sends, and the receiving side that checks its plan and takes its contents |
| `ReportLength.dfy` | how long the encodings of a plan and of a report become |
| `IpcFrame.dfy`, `BrokerWire.dfy` | length-prefixed frames; the response stream, written and read |
| `WireExchange.dfy` | the terminal handshake as two parties over bounded FIFO channels |
| `OwnedTree.dfy` | a tree of files, the part of it that a transaction owns, and why removing that part last first works |
| `ControlResponse.dfy`, `ControlClient.dfy` | staging and publication on a file system that can fail; the client's exchange |
| `Background.dfy` | the registry of background processes, its monitors and callers, as atomic steps in every interleaving |
| `BackgroundRunner.dfy` | the runner whose lock regions and channel operations are those steps, one recorded step each |
| `BackgroundRun.dfy` | a start, status, stop or logs request on that runner, from plan to bound report |
| `BrokerSession.dfy` | one request from its first byte to the acknowledgement of its response |
| `PlatformPath.dfy`, `InstallConfig.dfy`, `InstallPlan.dfy`, `ExecutionPolicy.dfy` | containment of paths, the separation of protected from writable trees, and which requests may run by which plan |
| `StageLeases.dfy`, `Installer.dfy` | the lease of one provisioning stage; seven of them acquired in order, rolled back or committed |
| `RunnerPackage.dfy` | which archives are accepted and why they can be extracted |

Strings are byte strings. Library code is a parameter with stated laws: SHA-256 as a streaming hash whose digest
depends only on the concatenation, `path.Match` on one segment as an oracle that may report a bad pattern, UTF-8
validity, timestamps as instants with formatting and parsing inverse for four-digit years (section 5.6 of RFC 3339),
and the JSON codecs as functions that decode what they encoded from valid records. Whatever the native world decides
(a launch, an exit, a timer, a cancellation, a failing write or rename) is a parameter or an unconstrained choice.

## What the code does not promise

Some expectations turned out false of the code. Each is settled exactly, and each has an input that shows it.

- The fallback report of a foreground run can be invalid although preflight passed: exactly when the run finishes
  after the year 9999, and in no other case (`ExecutionRun.FallbackValidity`, `ExecutionRun.FallbackCanFail`).
- Not every file that a pattern selects is answered for: an entry that cannot be read is passed over silently
  (internal/platform/linux/artifact/collector_linux.go:329-331). `LinuxCollector.CollectFiles` answers for every
  selected file with readable directories on the way to it, and, where nothing else goes wrong, for no other; in
  `LinuxCollector.UnreadableDirectoryIsSilent` a pattern is listed as complete while a file it selects is missing.
- A collection fails as a whole exactly when, among the entries it scans, a name in the working directory itself
  starts with two dots (collector_linux.go:332-335 tests the relative path for two dots, not for a parent) or a
  pattern is malformed on a file. Further down, two dots do no harm (`LinuxCollector.DottedNames`).
- A collection whose files are all in order can still fail, and so can the response that would carry it: the helper
  refuses a plan whose encoding exceeds 256 KiB (`HelperProtocol.Collect`: on a sound pipe exactly then, or when a file
  has changed its size), and the broker a report whose encoding does (`BrokerSession.Handle`: `ReportFits`).
  `ReportLength.LongPlanIsNeverSent` has a plan of the first kind; `ReportLength.LongReportIsNeverWritten` has a plan
  that is sent and accepted, and whose reports, valid in every respect, are of the second.
- A server that fails does not imply a client that fails. Beside a client that succeeded the server has failed exactly
  in the runs in which it gave up, and then it was waiting for the acknowledgement (`WireExchange.AloneMeansGivenUp`).
  After a failed server the client can still succeed exactly if it has not failed, everything had been sent, and what
  the server has not read of the acknowledgement fits the channel (`WireExchange.WhenClientSucceedsAlone`). For every
  response and channel there is such a run (`WireExchange.ClientMaySucceedAlone`). The direction that matters holds.
- A manifest that lists a file below another file passes every validator
  (`ControlResponse.NestedFilesPassValidation`) and can never be published: `ControlClient.Exchange` succeeds on a
  sound exchange of a bound response exactly when no file lies below another.
- A background entry can end as exited and carry the reason of a stop: exactly if a stop or a close marked it, and every
  such mark came after its monitor had read that there was no reason (`Background.ExitedAndStopped`). One marked before
  that never ends as exited (`Background.StoppedInTimeStays`). A run from the empty registry in which a mark comes too
  late is `Background.ExitedDespiteStop`.
- If the broker service cannot be committed after the runner service was, the runner service stays: exactly when the
  broker service's handle does not close and the runner service's did (`Installer.Lease.Commit`).
- The archive inspection checks the ancestors of files, not those of directories that the archive names itself: an
  archive that it accepts names a directory inside `bin/RunnerService.exe`
  (`RunnerPackage.DirectoryInsideFileAccepted`). It also measures paths under its own short root: what it accepts fits
  under every root that is no longer (`RunnerPackage.AcceptedFitsShortRoots`), and for every longer one it accepts an
  archive that does not (`RunnerPackage.LongNameAccepted`). On a store that needs free names, existing parents and
  paths of at most 1024 bytes, extraction succeeds exactly when every listed directory lies in the root or in a listed
  one and every path fits (`RunnerPackage.Extract`).
- A rollback can be reported as failed although everything has been taken back: exactly when the handle of a service
  that it deletes does not close (`StageLeases.StageLease.Close`, `Installer.Lease.Rollback`).

## Model

| member | source | states |
|---|---|---|
| `ArtifactPattern.MatchMeaning` | internal/artifactpattern/match.go:11-57 | A hit means the candidate's segments divide so that each `**` takes any number and every other segment exactly one match; a miss means they do not; a bad pattern means a malformed comparison was actually reached |
| `ArtifactPattern.Match` | internal/artifactpattern/match.go:11-57 | The memo tables change neither the answer nor the errors, and there are at most as many evaluations as pairs of positions |
| `ArtifactPattern.DescendantNeverMissed` | internal/artifactpattern/match.go:62-105 | A path below the prefix that the pattern selects is never denied, for any pattern |
| `ArtifactPattern.DescendantWitness` | internal/artifactpattern/match.go:62-105 | For satisfiable segments a positive answer names an actual path strictly below the prefix that matches |
| `ArtifactPattern.DescendantExact` | internal/artifactpattern/match.go:62-105 | Positive exactly when some path below the prefix matches, for well-formed satisfiable patterns |
| `ArtifactPattern.CouldMatchDescendant` | internal/artifactpattern/match.go:62-105 | The search with its memo and seen maps computes that answer, with at most as many evaluations as pairs of positions |
| `Protocol.BundleKeyInjective` | internal/platform/linux/artifact/collector_linux.go:549 | group, NUL, path determines both parts when neither group holds a NUL |
| `Protocol.ValidateArtifactSelections` | protocol/v1/validate.go:194-236 | The loops with their maps accept exactly the selections with distinct groups, distinct valid patterns and bounded totals |
| `Protocol.ValidateRequest` | protocol/v1/validate.go:63-111 | Accepts exactly valid requests: identifiers, operation with its process identifier, shell, script, limits, and artifacts only where something is executed |
| `Protocol.ValidateAcceptedRequest` | protocol/v1/accepted_validate.go:3-33 | Accepts exactly records of version 1 that carry the identifier and the digest of their own valid request and a valid provenance: issue, workflow run, control source, time of acceptance |
| `Protocol.ValidateFiles` | protocol/v1/result_validate.go:149-174 | The seen map and running total accept exactly pairwise different valid files whose exact sum is bounded; a sum once exceeded never recovers |
| `Protocol.ValidateOmissions` | protocol/v1/result_validate.go:175-192 | The seen map accepts exactly pairwise different valid omissions |
| `Protocol.ValidateArtifactManifest` | protocol/v1/result_validate.go:132-217 | Accepts exactly valid manifests: shape, counts, status shape, files, omissions |
| `Protocol.ValidateExecutionReport` | protocol/v1/result_validate.go:47-90 | Accepts exactly valid reports: identifiers, digests, outcome and exit code, canonical times and their duration, output metadata, manifest |
| `Protocol.ValidateExecutionReportBinding` | protocol/v1/binding_validate.go:21-61 | Accepts exactly valid reports that answer the accepted request: identity, digest, output limits, and only requested artifact groups |
| `OutputCapture.Capture.Write` | internal/outputcapture/capture.go:41-59 | The 64-bit count never wraps; an accepted write extends what is counted, digested and retained, a refused one changes nothing |
| `OutputCapture.Capture.TakeSnapshot` | internal/outputcapture/capture.go:61-78 | Reports the digest and length of everything accepted and the first bytes up to the limit, unless the count exceeds int64 |
| `OutputCapture.AcceptedIsConcat` | internal/outputcapture/capture.go:41-59 | Chunk boundaries do not matter: accepted writes amount to their concatenation, in full exactly when it fits the counter |
| `OutputCapture.SnapshotIsValid` | internal/outputcapture/capture.go:61-78 | Every snapshot passes the metadata validator; truncated exactly when bytes were dropped |
| `OutputCapture.NewCapture` | internal/outputcapture/capture.go:30-39 | Refuses exactly the limits outside the protocol bounds |
| `ExecutionRun.AwaitedOutcome` | internal/executionrun/run.go:157-202 | Every outcome of the select is reportable, and collection is safe only once the process tree is known to be gone |
| `ExecutionRun.FailedArtifactManifest` | internal/executionrun/run.go:268-281 | The nested loops list every requested pattern once, in order, as a failed collection |
| `ExecutionRun.ArtifactCollectionAllowed` | internal/executionrun/run.go:224-266 | Accepts exactly manifests whose files a pattern of their group selects and whose omissions were requested |
| `ExecutionRun.AllowedIsBound` | internal/executionrun/run.go:224-281 | An allowed manifest, like the failed one, lists only requested groups and is not-requested exactly when nothing was |
| `ExecutionRun.CollectArtifacts` | internal/executionrun/run.go:283-308 | Returns exactly the collector's manifest and bundle when it may be reported, and otherwise the failed manifest after closing the bundle |
| `ExecutionRun.FallbackValidity` | internal/executionrun/run.go:101-150 | After preflight, a report with the failed manifest is valid exactly when its two times have four-digit years |
| `ExecutionRun.FallbackCanFail` | internal/executionrun/run.go:143-150 | Counterexample: a run that ends after the year 9999 has no valid fallback report |
| `ExecutionRun.RunForeground` | internal/executionrun/run.go:72-155 | For every launcher, timer and collector behaviour: each error exactly when its cause holds; what is produced is exactly the outcome of that world, valid and bound; the bundle of a collector that was asked ends closed or handed on, and no other is touched |
| `ExecutionRun.Launch` | internal/executionrun/run.go:106-155 | The part after preflight fails only for a regressing clock, a capture past int64 or an inexpressible finish time, and otherwise reports the outcome of its world |
| `ExecutionRun.Report` | internal/executionrun/run.go:137-155 | The report of the outcome: the collector's manifest exactly when it is usable and valid, the failed one otherwise; a collected bundle is handed on open or closed |
| `ExecutionRun.BuildBackgroundOutput` | internal/executionrun/background.go:327-364 | For a plan that passed preflight, built exactly when clock and lengths allow it; what is built is a valid, bound output that tells its outcome |
| `ExecutionRun.FailedManifestValid` | internal/executionrun/run.go:268-281 | For every valid request the manifest that lists all its patterns as failed is valid |
| `ExecutionRun.AuthorizedIsAccepted` | internal/executionrun/run.go:72-105 | An authorized plan passes preflight exactly when the clock can be formatted |
| `LinuxCollector.PrunedIsConcerned` | internal/platform/linux/artifact/collector_linux.go:453-463 | Every file below a pruned entry that a well-formed pattern selects concerns that pattern, so its reason is noted |
| `LinuxCollector.Walk.CollectForGroup` | internal/platform/linux/artifact/collector_linux.go:374-400 | A matched file is collected under its group or every matching pattern of the group notes why not |
| `LinuxCollector.Walk.Visit` | internal/platform/linux/artifact/collector_linux.go:328-402 | Each callback keeps the plan so far valid, accounts for every file it settles, and gives exactly the signal that its entry calls for |
| `LinuxCollector.CollectFiles` | internal/platform/linux/artifact/collector_linux.go:317-421 | Fails exactly when a scanned entry is dotted at the top or meets a malformed pattern; otherwise the plan passes validateHelperPlan, is sorted, plans only files it reached, answers for every selected file with readable directories above it, and, where nothing else goes wrong, for no other |
| `LinuxCollector.AnsweredIsReadable` | internal/platform/linux/artifact/collector_linux.go:328-402 | Where only missing matches are listed, every answer names a file that readable directories lead to |
| `LinuxCollector.UnreadableDirectoryIsSilent` | internal/platform/linux/artifact/collector_linux.go:329-331 | Counterexample: below an unreadable directory a selected file is neither collected nor its pattern omitted |
| `LinuxCollector.DottedNames` | internal/platform/linux/artifact/collector_linux.go:332-335 | Two dots at the start of a name stop the collection in the working directory itself and nowhere below |
| `HelperProtocol.ValidateHelperPlan` | internal/platform/linux/artifact/collector_linux.go:212-259 | Accepts exactly plans of distinct, selected, bounded files and requested omissions |
| `HelperProtocol.DeliveredManifest` | internal/platform/linux/artifact/collector_linux.go:195-206 | The manifest made from an accepted plan and its delivered content is allowed and valid for the same selections |
| `HelperProtocol.SendCollection` | internal/platform/linux/artifact/collector_linux.go:293-315 | The plan goes out exactly if its encoding is at most 256 KiB, then every file, each with exactly its planned size or not at all successfully |
| `HelperProtocol.ReceiveCollection` | internal/platform/linux/artifact/collector_linux.go:144-210 | Accepts exactly streams that are one framed, decodable, valid plan with something in it, the content that it declares, and a clean end; the collection is then valid, allowed, and holds exactly those contents with their digests |
| `HelperProtocol.Collect` | internal/platform/linux/artifact/collector_linux.go:100-142 | From the walk to the bundle, on a sound pipe: a collection comes about exactly if the walk does not stumble, the encoded plan fits its limit, and no file has changed its size since it was opened; it answers for every selected file that can be reached and holds what was planned |
| `ReportLength.LongPlanIsNeverSent` | internal/platform/linux/artifact/collector_linux.go:293-296 | Counterexample: a valid plan of 256 files with long paths whose encoding exceeds the limit |
| `ReportLength.LongReportIsNeverWritten` | protocol/v1/records_codec.go:40-45 | Counterexample: a collection that the helper sends and the receiver accepts, and whose valid reports all exceed 256 KiB |
| `ReportLength.LongReportNeverArrives` | internal/brokerwire/write.go:65-74 | No run that collected those files has an outcome that can be delivered |
| `IpcFrame.FrameRoundTrip` | internal/ipcframe/frame.go:24-68 | A written frame reads back whatever follows it |
| `IpcFrame.FrameDecided` | internal/ipcframe/frame.go:24-41 | What the reader decided on a stream stays decided when more bytes arrive |
| `IpcFrame.ByteReader.Read` | internal/ipcframe/frame.go:24-41 | Succeeds exactly when a whole legal frame is in front, and consumes exactly that frame |
| `IpcFrame.ByteWriter.Write` | internal/ipcframe/frame.go:43-68 | The partial-write loop: success means the whole frame went out, failure at most a part of it |
| `BrokerWire.ReplyDecided` | internal/brokerwire/read.go:27-105 | The response parser is online: later bytes never change what earlier bytes decided |
| `BrokerWire.PrefixStarves` | internal/brokerwire/read.go:27-105 | Every proper prefix of a complete response leaves its reader waiting |
| `BrokerWire.ContentRoundTrip` | internal/brokerwire/read.go:118-136 | Any split of a content into non-empty chunks of at most 64 KiB reads back as the content |
| `BrokerWire.SurplusStays` | internal/brokerwire/read.go:118-136 | Content beyond the declared total is never absorbed |
| `BrokerWire.ArtifactsRoundTrip` | internal/brokerwire/read.go:138-175 | Artifact contents of the declared sizes and digests read back in order, however they were split |
| `BrokerWire.ReplyRoundTrip` | internal/brokerwire/read.go:27-105 | A legal response reads back as exactly the report, streams and artifacts it carries |
| `BrokerWire.RejectionRoundTrip` | internal/brokerwire/read.go:34-47 | A rejection reads back as that failure and nothing else |
| `BrokerWire.WriteBytes` | internal/brokerwire/write.go:132-144 | Writes a content as full chunks and what is left |
| `BrokerWire.WriteArtifact` | internal/brokerwire/write.go:146-193 | Sends a bundle's content only with the declared size and digest |
| `BrokerWire.ValidateOutput` | internal/brokerwire/write.go:111-130 | Accepts exactly outputs whose report, lengths, digests and bundle agree |
| `BrokerWire.WriteExecution` | internal/brokerwire/write.go:43-87 | What is reported as sent is one legal response carrying the output; the bundle is always closed; only the transport can stop a sendable output |
| `WireExchange.StepKeeps` | internal/brokerwire/read.go:72-116 | Every step of either party, failing or not, conserves the bytes in flight and keeps the phases in step |
| `WireExchange.ServerSuccessMeansDelivered` | internal/brokerwire/write.go:100-109 | In every interleaving a successful server implies the client had read the whole response, digests matched, and then the terminal marker |
| `WireExchange.ClientSuccessMeansComplete` | internal/brokerwire/read.go:97-116 | In every interleaving a successful client read the response, the marker and then the end of the stream, with nothing in between |
| `WireExchange.CommitsOnlyAtEnd` | internal/brokerwire/read.go:97-116 | In every interleaving the client comes to commit in one step only: on the end of a stream of which it has read response and marker |
| `WireExchange.AloneMeansGivenUp` | internal/brokerwire/write.go:100-109 | In every run whose client has succeeded the server has failed exactly if it gave up, and it gave up while it waited for the acknowledgement, with everything sent |
| `WireExchange.WhenClientSucceedsAlone` | internal/brokerwire/read.go:107-116 | After a server has failed, a continuation in which the client succeeds exists exactly if the client has not failed, everything had been sent, and what the server has not read of the acknowledgement fits the channel |
| `WireExchange.ClientMaySucceedAlone` | internal/brokerwire/write.go:100-109 | There is such a run for every response and every channel |
| `WireExchange.NeverDeadlocked` | internal/brokerwire/read.go:107-116 | Two parties that have not failed are finished or one of them can move |
| `WireExchange.HonestStepStaysUnfailed` | internal/brokerwire/read.go:107-116 | No step other than giving up makes a party fail |
| `WireExchange.HonestRunsFinish` | internal/brokerwire/write.go:89-109 | Runs are bounded, and one without failures can stop only when both parties have succeeded |
| `OwnedTree.LastDirectoryIsEmpty` | internal/platform/linux/controlresponse/destination_linux.go:230-234 | Reverse order is right: with the files gone the directory listed last is empty |
| `ControlResponse.MovedIsPublished` | internal/platform/linux/controlresponse/destination_linux.go:204-211 | Renaming a clean staging tree publishes exactly the staged files and the directories that hold them, and nothing else |
| `ControlResponse.New` | internal/platform/linux/controlresponse/destination_linux.go:60-76 | A fresh staging directory beside a free final path, or an unchanged tree; on a sound file system always the former where the names are free |
| `ControlResponse.Destination.EnsureDirectory` | internal/platform/linux/controlresponse/destination_linux.go:241-256 | At most one more owned directory, recorded after its parent; nothing else changes |
| `ControlResponse.Destination.CreateArtifact` | internal/platform/linux/controlresponse/destination_linux.go:102-128 | The directories on the way to an artifact and its new file, all owned; succeeds whenever the way is free |
| `ControlResponse.Destination.WriteNewFile` | internal/platform/linux/controlresponse/destination_linux.go:258-271 | One new owned file with exactly the body |
| `ControlResponse.Destination.Begin` | internal/platform/linux/controlresponse/destination_linux.go:78-89 | One transaction at most, for a file list that could stand in a manifest |
| `ControlResponse.Destination.Publish` | internal/platform/linux/controlresponse/destination_linux.go:179-212 | All or nothing: on success the published tree is the staged files and the three metadata files; it succeeds whenever the response is valid and the path free |
| `ControlResponse.Destination.Abort` | internal/platform/linux/controlresponse/destination_linux.go:214-239 | From every reachable unpublished state, a sound file system is back to what it was before New; a second abort does nothing |
| `ControlResponse.ArtifactTransaction.Open` | internal/platform/linux/controlresponse/destination_linux.go:91-128 | Only the next expected file, and only one at a time |
| `ControlResponse.ArtifactTransaction.Commit` | internal/platform/linux/controlresponse/destination_linux.go:156-169 | Succeeds exactly when every expected file has been closed in a live destination |
| `ControlResponse.ArtifactWriter.Close` | internal/platform/linux/controlresponse/destination_linux.go:137-154 | Counts a file as done unless it cannot be synced or the destination was aborted |
| `ControlResponse.NextPlaceFree` | internal/platform/linux/controlresponse/destination_linux.go:91-128 | The next artifact of a manifest without nested files always has room |
| `ControlResponse.NestedFilesPassValidation` | protocol/v1/result_validate.go:149-174 | Counterexample: a manifest with a file below a file passes the validator |
| `ControlClient.ReadBytes` | internal/brokerwire/read.go:118-136 | The offset loop returns exactly the parsed content |
| `ControlClient.ReadArtifact` | internal/brokerwire/read.go:138-175 | Success means one artifact of the declared digest was staged in full; the writer is closed on every path |
| `ControlClient.ReceiveArtifacts` | internal/brokerwire/read.go:92-96 | The artifacts arrive in manifest order, and staging succeeds for every manifest without nested files |
| `ControlClient.FinishClientExchange` | internal/brokerwire/read.go:107-116 | Marker, acknowledgement, clean end of stream; succeeds exactly then on a sound transport |
| `ControlClient.FinishServerExchange` | internal/brokerwire/write.go:100-109 | Succeeds only after the marker went out and exactly the acknowledgement came back, and then always on a sound transport |
| `ControlClient.ReadResponse` | internal/brokerwire/read.go:27-105 | A response is returned only if the stream is exactly one response and its marker, with every artifact staged; artifacts are committed only then, and only on a stream that ends cleanly |
| `ControlClient.ReceiveAndCommit` | internal/brokerwire/read.go:92-105 | Artifacts are committed exactly when every one arrived and the exchange ended as it must |
| `ControlClient.DeliveryMatchesManifest` | internal/brokerwire/read.go:57-70 | Whatever was read has the sizes and digests that its manifest declares |
| `ControlClient.StagedCompatible` | internal/brokerwire/read.go:92-96 | Only manifests in which no file lies below another can be staged |
| `ControlClient.Exchange` | internal/controlclient/client.go:44-105 | Succeeds exactly when the final path was published, with the verified response and nothing else; otherwise aborts and leaves the final path free; and a sound exchange of a bound response succeeds |
| `BrokerSession.Run` | internal/executionrun/run.go:61-70 | Produces an output exactly when the plan is accepted and clock and lengths allow it; the output tells the outcome of the execution, or of the operation on the registry; a bundle is touched only if it was asked for |
| `BrokerSession.Reject` | internal/brokersession/session.go:122-129 | A successful rejection is one response carrying that failure; a sound, acknowledged transport always gives success |
| `BrokerSession.Respond` | internal/brokerwire/write.go:89-98 | A successful response carries the output and nothing else, the bundle is closed, and only the transport can stop a sendable output |
| `BrokerSession.Handle` | internal/brokersession/session.go:71-120 | On success exactly one response went out, fixed by the request and its conditions: which rejection for which reason, or the report, the streams and the file contents of what its own plan came to; only the transport, or a report whose encoding exceeds 256 KiB, can prevent it, and the latter always does; a bundle that was asked for is always closed |
| `BrokerSession.Serve` | internal/brokersession/session.go:100-120 | An authorized request is run once and answered with exactly its outcome; the guard against unbound reports never fires |
| `BrokerSession.RunnablePlan` | internal/executionpolicy/authorize.go:14-77 | Every authorized plan is runnable: in the foreground exactly when the clock can be formatted, in the background always |
| `BrokerSession.DeliveredIsHeld` | internal/brokerwire/write.go:146-193 | What the collector delivers is what the writer needs |
| `Background.MonitorKeeps` | internal/executionrun/background.go:198-237 | Every step of the monitor keeps the entry consistent and takes nothing back |
| `Background.ExitedAndStopped` | internal/executionrun/background.go:211-218 | In every run an exited entry carries the reason of a stop exactly if a stop or a close marked it, and then only after the monitor had read that there was no reason; it never carries the reason of the timer |
| `Background.StoppedInTimeStays` | internal/executionrun/background.go:386-402 | In every run an entry marked before its monitor decided never ends as exited |
| `Background.ExitedDespiteStop` | internal/executionrun/background.go:211-218 | There is a run from the empty registry in which an entry ends as exited with the reason of a stop |
| `Background.RemoveKeeps` | internal/executionrun/background.go:372-378 | Removing a finished entry's key leaves running and newer entries registered |
| `Background.StepKeeps` | internal/executionrun/background.go:145-300 | Every atomic step of start, monitor, stop and close keeps the invariant, in every interleaving |
| `Background.SettledForGood` | internal/executionrun/background.go:404-416 | In every run: once out of running, state, exit code and finish time never change, and the reason is set once |
| `Background.ClosedExactlyWhenEnded` | internal/executionrun/background.go:404-416 | In every run: the done channel has been closed exactly once if the monitor has ended, and not at all before |
| `Background.MonitorDescends` | internal/executionrun/background.go:198-237 | Every move brings a monitor closer to its end |
| `BackgroundRunner.SomeMove` | internal/executionrun/background.go:198-237 | A monitor that has not ended can always move |
| `Background.AtMostSixMoves` | internal/executionrun/background.go:198-237 | In every run each monitor moves at most six times and has ended after six |
| `Background.LeavesRunningOnce` | internal/executionrun/background.go:404-416 | In every run an entry leaves running at exactly one step |
| `Background.OutcomeFits` | internal/executionrun/background.go:198-237 | In every run: stopped and timed-out carry that reason; an exit code is present, in range, exactly for exited and stopped |
| `Background.RegistrySound` | internal/executionrun/background.go:145-196 | In every run: at most 32 keys, every running process registered, one at most per session and process |
| `Background.StopSparesNewer` | internal/executionrun/background.go:250-268 | A stop that raced with a restart never deletes the newer entry |
| `Background.ReturnsAreFinal` | internal/executionrun/background.go:250-300 | In every run: a returned stop left its entry finished and unregistered for good; a close without error left every snapshotted entry finished |
| `BackgroundRunner.Runner.StartBackground` | internal/executionrun/background.go:145-196 | Admits exactly a free key under the capacity after a successful launch, in one step; otherwise nothing changes |
| `BackgroundRunner.Runner.MonitorBackground` | internal/executionrun/background.go:198-237 | Whatever other threads do: it ends, the channel closed exactly once, in the outcome its process, timer and stops call for |
| `BackgroundRunner.Runner.AwaitDone` | internal/executionrun/background.go:250-268 | Given a fair scheduler, every wait for a done channel ends, because monitors can move and have a bounded number of moves |
| `BackgroundRunner.Runner.StopBackground` | internal/executionrun/background.go:250-268 | A stop that is not cancelled and can terminate the tree fails only for an unregistered key; one that returns left its own entry finished and its key free |
| `BackgroundRunner.Runner.RemoveBackground` | internal/executionrun/background.go:372-378 | Exactly the expected entry stops being registered; every key that names another one stays, a newer one under the same key included |
| `BackgroundRunner.Runner.Close` | internal/executionrun/background.go:270-300 | Without an error every process registered at its snapshot is finished; without a failed termination or a cancellation there is no error |
| `BackgroundRun.ValidateBackgroundPlan` | internal/executionrun/background.go:114-143 | Accepts exactly plans whose empty report would be valid |
| `BackgroundRun.Perform` | internal/executionrun/background.go:65-101 | Each operation answers what the registry calls for: admitted or denied, found or denied, stopped or failed, with the header and logs of exactly that entry |
| `BackgroundRun.RunBackground` | internal/executionrun/background.go:55-112 | An accepted plan is performed once and its answer reported, unless clock or lengths forbid it |
| `PlatformPath.ContainsIsPrefix` | internal/platformpath/path.go:55-71 | The string-prefix test is segment-prefix containment after case folding |
| `PlatformPath.EqualIsSameKey` | internal/platformpath/path.go:48-53 | Equality of paths is equality of folded segments |
| `PlatformPath.ValidIsCanonical` | internal/platformpath/path.go:20-125 | A validated path never ends in a separator unless it is a filesystem root |
| `PlatformPath.ContainsTransitive` | internal/platformpath/path.go:55-71 | Containment is transitive |
| `PlatformPath.ContainsAntisymmetric` | internal/platformpath/path.go:48-71 | Mutual containment is equality |
| `PlatformPath.CommonPathOverlaps` | internal/platformpath/path.go:73-75 | Two roots that contain a common path overlap |
| `PlatformPath.OverlapsNothingBelow` | internal/platformpath/path.go:73-75 | Below a root that is apart from something, everything is apart from it |
| `InstallConfig.ValidateRoots` | internal/installconfig/validate.go:103-130 | The loops accept exactly roots that are pairwise apart and apart from profile and temporary directory |
| `InstallConfig.ValidateShells` | internal/installconfig/validate.go:132-157 | Accepts exactly distinct supported shells with distinct executables outside every approved root |
| `InstallConfig.ValidatePathEntries` | internal/installconfig/validate.go:159-174 | Accepts exactly distinct entries outside every approved root |
| `InstallConfig.UniqueApprovedRoot` | internal/installconfig/validate.go:103-130 | Any path lies in at most one approved root |
| `InstallPlan.Validate` | internal/installplan/plan.go:22-89 | Accepts exactly specifications whose two protected roots are apart from everything the workload may write |
| `InstallPlan.RootsApart` | internal/installplan/plan.go:186-193 | The installation root and the derived runner root never overlap |
| `InstallPlan.LayoutUnderTwoRoots` | internal/installplan/plan.go:134-184 | Every layout path lies below exactly one of the two protected roots |
| `InstallPlan.LayoutApartFromWorkload` | internal/installplan/plan.go:22-184 | No layout path overlaps an approved root, the profile or the temporary directory |
| `ExecutionPolicy.ValidateResolution` | internal/executionpolicy/authorize.go:99-123 | Accepts exactly resolutions inside a configured root |
| `ExecutionPolicy.Authorize` | internal/executionpolicy/authorize.go:14-77 | A plan is made exactly for permitted requests, and it carries the request's own fields, the configured executable, the resolved directory and the built environment |
| `ExecutionPolicy.PlanResolves` | internal/executionpolicy/authorize.go:14-77 | Every plan runs a configured shell with a script, in a directory that is an accepted resolution of the one requested |
| `ExecutionPolicy.ValidateEnvelope` | internal/brokerproto/validate.go:11-25 | Accepts exactly envelopes with a valid attempt identifier and a valid accepted request |
| `ExecutionPolicy.AuthorizedInOneRoot` | internal/executionpolicy/authorize.go:99-123 | The working directory lies in exactly one approved root |
| `ExecutionPolicy.AuthorizedApartFromState` | internal/executionpolicy/authorize.go:99-123 | An authorized working directory overlaps neither the profile nor the temporary directory |
| `ExecutionPolicy.AuthorizedApartFromInstallation` | internal/executionpolicy/authorize.go:99-123 | An authorized working directory overlaps no layout path of an accepted installation, above it or below it |
| `ExecutionPolicy.ToolsOutsideWorkingDirectory` | internal/executionpolicy/authorize.go:99-123 | No configured tool lies in an authorized working directory |
| `StageLeases.UndoneAppend` | internal/platform/windows/installer/transaction_windows.go:347-392 | Undoing nested changes last first is undoing the later stage, then the earlier |
| `StageLeases.Host.RollBack` | internal/filesystemprovision/provision.go:102-113 | Every rollback step is tried; without a failed step the state is exactly the earlier one |
| `StageLeases.Provision` | internal/filesystemprovision/provision.go:37-76 | All targets are changed, in order, and undoable, or the starting state is back; without a failing step the former |
| `StageLeases.ProvisionTree` | internal/platform/windows/installroot/root_windows.go:70-112 | Exactly the items are made and owned, leading back to the tree before them, or everything made so far is removed again; if each name is free in its turn, the former |
| `StageLeases.DirectoryTakenBack` | internal/platform/windows/installroot/root_windows.go:253-257 | With the files gone, the directory listed last is empty, also where some of what is listed is gone already, and removing it leaves the rest owned |
| `StageLeases.StageLease.MakeDirectory` | internal/platform/windows/runnerstore/store_windows.go:460-509 | A directory below an owned one, or the root itself, is made and owned, even if making it was reported as failed, or nothing happens; the way back is unchanged |
| `StageLeases.StageLease.MakeFile` | internal/platform/windows/runnerstore/store_windows.go:149-194 | A file in an owned directory is made and owned, even if making it was reported as failed, or nothing happens; the way back is unchanged |
| `StageLeases.StageLease.RemoveDirectories` | internal/platform/windows/runnerstore/store_windows.go:292-300 | Last first, every directory that is still there is empty when its turn comes; on a sound host none fails and the tree is the earlier one |
| `StageLeases.StageLease.Close` | internal/platform/windows/runnerstore/store_windows.go:269-309 | Takes back at most once and never after a commit: recorded changes, or files and then directories, each last first; it reports a failure exactly if something could not be taken back, which on a sound host does not happen, or if a service handle does not close |
| `StageLeases.StageLease.Commit` | internal/platform/windows/serviceinstall/provision_windows.go:120-136 | Succeeds exactly on a lease not closed whose service handle closes, and forgets the way back |
| `StageLeases.SealDirectory` | internal/platform/windows/runnerstore/store_windows.go:390-449 | The recursion over the listings counts every object below once, and stops exactly at something that is neither file nor directory, at one object too many, or at a failing native call; what was listed completely already stays as it is |
| `StageLeases.StageLease.Seal` | internal/platform/windows/runnerstore/store_windows.go:327-341 | After it the lists name everything below the root, whoever made it, each under its kind, directories after the ones they lie in, and nothing that is not there |
| `StageLeases.StageLease.Tend` | internal/runnerregistration/registration.go:152-158 | A run of the listener and the sealing after it leave the way back as it was; on a sound host, where what the listener left can be sealed, that never fails |
| `StageLeases.ModestIsOrderly` | internal/runnerregistration/registration.go:152-158 | What is asked of a listener can be met |
| `Installer.Lease.Register` | internal/runnerregistration/registration.go:121-173 | Either the runner is configured, what the listener wrote is owned and its three files are among it, or the listener has removed it again if it ran; either way what all stages hold still leads back to the start |
| `Installer.Lease.Rollback` | internal/platform/windows/installer/transaction_windows.go:347-392 | Every held stage's lease is closed once, in exact reverse order of acquisition, none committed, the listener run once more and its leavings sealed before its storage is removed; on a sound host the machine is what it was, and a failure is reported exactly if a service handle does not close |
| `Installer.Lease.Commit` | internal/platform/windows/installer/transaction_windows.go:269-326 | Which way it ends depends only on the two service handles: full rollback, runner service left behind and nothing else, or all seven leases committed and none closed; finalization never fails |
| `Installer.ProvisionInstallation` | internal/platform/windows/installer/transaction_windows.go:107-243 | Either all seven leases are held and exactly the plan is installed with what configuring the runner left, which is certain where every name is free and no step fails; or the stages started so far are closed once in reverse, none committed, and objects and files are as before unless taking something back failed, which on a sound host with at most 8192 objects in the runner tree it never does |
| `Installer.WithoutRunnerService` | internal/platform/windows/installer/transaction_windows.go:287-295 | What is left when only the runner service stays: its own changes, no file, and everything else as before |
| `RunnerPackage.Inspect` | internal/runnerpackage/package.go:156-228 | The loop over four maps accepts exactly archives with no repeated name, no two names that differ in case only, no file that is also a directory, and a bounded total |
| `RunnerPackage.AcceptedNamesApart` | internal/runnerpackage/package.go:166-208 | Accepted files are apart from every other name and from every ancestor, even up to case |
| `RunnerPackage.AncestorsListedInOrder` | internal/runnerpackage/package.go:214-225 | Every ancestor of every file is listed, after its own parent |
| `RunnerPackage.Extract` | internal/runnerpackage/package.go:246-286 | On a store that needs free names, existing parents and paths of at most 1024 bytes, extraction succeeds exactly when every listed directory lies in the root or a listed one and every path fits under the root; then it holds exactly the archive |
| `RunnerPackage.FileMapIsArchive` | internal/runnerpackage/package.go:265-285 | The extracted files are the archive's files, each with its size |
| `RunnerPackage.DirectoryInsideFileAccepted` | internal/runnerpackage/package.go:175-185 | Counterexample: an archive that inspection accepts names a directory inside one of its files |
| `RunnerPackage.AcceptedFitsShortRoots` | internal/runnerpackage/package.go:457-486 | What inspection accepts fits under every root that is no longer than the one it measures with |
| `RunnerPackage.LongNameAccepted` | internal/platform/windows/runnerstore/store_windows.go:511-527 | Counterexample: under every longer root some accepted archive with rooted directories does not fit |

## Left out

- WireExchange.StepKeeps: the sending party is an honest one, a complete response followed by the marker; what the client does with every other byte stream is `ControlClient.Exchange`, which is sequential.
- HelperProtocol.ReceiveCollection: the private bundle directory, cancellation and close errors of its files are not modelled; a plan's JSON is a pair of functions that decode what they encoded from a valid plan.
- HelperProtocol.Collect: the checks of identity, approved root and working directory before the helper is started are not modelled; a process that fails to start or to exit cleanly is a failing write.
- ReportLength.LongPlanIsNeverSent: of JSON it is assumed that it spells out every string, and around letters and slashes adds at most quotes, member names, commas, braces and nine digits.
- ControlResponse.New: the temporary name is a parameter, the one the temporary-directory call settles on; string-level validation of the final path is PlatformPath's.
- ControlResponse.Destination.Publish: rename onto an occupied name is never reached, because the check before it refuses; other writers to the file system are not modelled.
- ControlResponse.ArtifactWriter.Write: a writer is used before publication only; writing through a handle after the rename is not modelled.
- Installer.ProvisionInstallation: passwords and their clearing, tokens and descriptors are not modelled. The runner's own listener is a pair of functions on trees: it writes below the runner root only, configuring deletes nothing, and nothing becomes something of another kind; on a sound host what it leaves can be sealed, if configuring began with at most 8192 objects.
- StageLeases.StageLease.Seal: descriptors and the validity of generated paths are not modelled; of both, only that a native call may fail.
- StageLeases.StageLease.MakeDirectory: owned paths are compared as they are, not up to case; nobody but the listener writes below the two roots; the record of attempted paths is not modelled, no path being written twice.
- StageLeases.Provision: a native convergence either applies its one change or leaves nothing behind.
- RunnerPackage.Inspect: starts from the zip directory; version, archive size and digest, and the Linux tar variant with modes and symbolic links are not modelled.
- RunnerPackage.Extract: what a store adds beyond free names, existing parents and the length of a path (rights, ownership) is not modelled; copying a file succeeds or fails as a whole.
- InstallConfig.ValidateRoots: versions, principals and capabilities are one given boolean.
- ExecutionPolicy.Authorize: the resolver and the environment builder are given functions; identity and capabilities of the plan are not modelled.
- PlatformPath.ContainsIsPrefix: case folding is ASCII's for both comparisons; the code folds with two different Unicode functions on Windows.
- BrokerSession.Handle: timeouts of the streams are failures of the reader and writer; what the collector's bundle holds is a premise of certain delivery, met by `BrokerSession.DeliveredIsHeld`.
- Background.StepKeeps: entries are values in a list, so aliasing of their pointers is not captured; output capture and launching are not part of the steps.
- BackgroundRunner.Runner.AwaitDone: the scheduler is fair and the process or its timer eventually fires.
- BackgroundRun.Perform: the JSON of a response header and what an entry's captures hold are given; formatted times are part of that JSON.
- OutputCapture.Capture.Write: the stream of a process ends at its first refused write.
- ExecutionRun.AwaitedOutcome: the select is one event; grace periods are events too.
- ExecutionRun.CollectArtifacts: closing a bundle cannot fail in the model.
- Error rules are not told apart beyond success and failure, except where a contract names them; order of checks inside one validator is kept only where it is observable.
- sort.Slice and sort.Strings are modelled as an insertion sort.
- Protocol.ValidateAcceptedRequest: the request digest, the syntax of a working directory and of a script, and Unicode white space are given functions.
- The Windows response destination and artifact collector, near twins of the Linux ones.
- accountprovision beyond its list of created accounts, and runnerregistration beyond its lease, its two runs and their sealing.
- GitHub client, command lines, doctor, uninstallers, workflow generation, environment projection.
- Native code: access control lists, pipes, job objects, service control, sockets, ptrace.
