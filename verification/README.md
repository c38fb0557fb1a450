# conniver, modelled and proved in Dafny

conniver wraps a `net.Conn`, counts what passes through it, reads the kernel's `tcp_info` when the connection opens
and closes, and hands one report to a callback when the connection is closed. This project models the parts of it
that are hard to get right and proves what they promise. `dafny verify dfyconfig.toml` checks all of it.

## What is modelled

**The lifecycle of a wrapped connection** (`wrap.go`). `Lifecycle` holds the fields of the wrapper as a value and one
function for each section of code that holds the mutex. `Connection.Conn` is the same wrapper as an object: its
methods are those sections, and each is proved to do to the fields and the reports they point to what the function does
to the value. `Protocol` interleaves the sections: any number of Read, Write, Close and deadline calls, each with its own
program counter, with `Wait`, the broadcast and the `done` channel as they are in the source. Underlying calls may return
anything. On top of it:

- `Invariant`: what every interleaving keeps;
- `Progress`: no lost wakeup, no deadlock, a bound on the length of every run;
- `Reports`: the report at close is complete and final, all Close calls agree;
- `Timing`: the timestamps of the wrapper and of its report;
- `Results`: what the underlying calls and the sockets gave, and where it went;
- `Ordering`: which events may come before which, as a monitor that every trace satisfies;
- `Deadlines`: which deadline calls act on the connection, and what the others return;
- `Refinement`: every interleaving is, step by step, a run of an atomic machine without locks or counters;
- `Inert`: a wrapper without a connection does nothing, whatever is called on it;
- `Collection`: the socket reports stored in a wrapper, end to end.

**Kernel adaptation and the socket report** (`pkg/tcpinfo`). `Adaptation` is the version table and the two nested loops
that set the flags. `RawLayout` computes the offsets of `RawTCPInfo` and ties three things together for every kernel
version: the layout, the length asked for, and the fields reported as valid. `SysInfo` unpacks the struct and adds the
congestion-control data. `InfoHeap` has the reports as objects that share storage, and their deep copies.

**The kernel release string** (`pkg/kernel/kernel.go`), in `Kernel`: the two scans of `ParseRelease`, with `%d` and `%s`
as Go's `fmt.Sscanf` reads them, against `String`.

**The order of response headers** (`cmd/httpstat/main.go`), in `Headers`.

### What the protocol takes for granted

- A section that holds the mutex is one step; so is each underlying call, the entry to and the exit from the callback.
- Underlying calls and the callback return, and do not panic.
- The callback at close does not call Close on the live wrapper. `Ordering.CloseReturnsLast` says why it must not: no
  Close returns before the callback has been left.
- Nobody closes the connection through the report made at open, which keeps it, and the fields change through the
  methods only.
- Nothing is assumed of the number of bytes or of the clock. Byte totals wrap at 64 bits, and are the plain sums whenever
  those fit. Only `Timing` needs a clock that is positive and does not go back.
- A run starts with the set of all calls that will ever be made. A call that has not begun has no effect, so calls may
  as well arrive over time.

### What does not hold

- On kernels from 4.9 up to 4.10 the table asks for 148 bytes, less than for 4.6, and four fields past that length are
  reported as valid; on kernels from 6.2 up to 6.7 so are the three totals of retransmission timeouts, which those
  kernels do not have. These seven are always reported as zero there. `RawLayout.ValidityAgainstLayout` and
  `SysInfo.UnpackedAgainstKernel` state this exactly: those fields in those windows, and nothing else.
- Parsing, printing and parsing again does not always give the first result: in "3.8 5" the digit after the gap becomes
  the flavor, and is printed next to the minor number. `Kernel.ReleaseNormalises` has the exact condition.
- A deadline call may reach the connection after it was closed (`Deadlines.DeadlineMayComeLate`). What decides is when it
  looked: `Deadlines.ActsIffItLookedInTime` says that it acts if and only if it looked before the close was claimed.
- `Less("Server", "Server")` is true, so the header order is a strict order on distinct names only.

## Model

| member | source | states |
|---|---|---|
| `Refinement.EveryRunRefines` | wrap.go:238-396 | every run of every set of calls, seen from outside, is a run with stuttering of an atomic machine that admits I/O calls only while open, logs the result of each admitted call once and gives it to the call, closes when all admitted calls are logged, delivers one report made from the log, and answers every Close alike |
| `Refinement.StepRefines` | wrap.go:238-396 | in every reachable state each single step either changes nothing visible or is one step of the atomic machine |
| `Refinement.SpecPathIsOk` | wrap.go:72-76 | the atomic machine never delivers anything but one summary of its whole log, when no admitted call is missing from it; gives all Close calls one error; answers each call as its kind is; and logs exactly the bytes it told the calls of |
| `Refinement.LateCallsAreNotLogged` | wrap.go:242-244 | on no path of that machine is a call logged that was not admitted before the close started |
| `Reports.FinishedRunsAreReported` | wrap.go:289-396 | when nothing can move any more and one of the calls was a Close, every call has returned, the callback got one report whose received bytes are the sum over the Read calls and whose sent bytes are the sum over the Write calls, and every Close returned the error in that report |
| `Reports.FinalReportIsComplete` | wrap.go:326-339 | a report at close has as received bytes the sum over all Read calls and as sent bytes the sum over all Write calls that will ever be counted, counters that summarise the log, the error of the one underlying Close, the info taken at open and at close, and leaves no admitted call unfinished |
| `Reports.ReportIsDetached` | wrap.go:213-236 | the report has no connection, callback, condition variable, channel or call in flight |
| `Results.CallsReturnWhatTheyWereGiven` | wrap.go:345-396 | each Read or Write makes at most one underlying call and returns exactly its count and error; a refused one makes none |
| `Results.LogHoldsTheResults` | wrap.go:351-393 | every result is in the log as often as a call has it, those of Read as received and those of Write as sent |
| `Results.ClosesAreWhatWasGiven` | wrap.go:319-327 | the recorded close errors are those the underlying Close returned |
| `Results.DeadlinesReturnWhatWasGiven` | wrap.go:278 | a deadline call that acts has the answer of the connection, as often as that answers |
| `Results.InfoIsWhatWasAnswered` | wrap.go:110-169 | on a supported wrapper the info at open and at close is exactly what the sockets answered then, one answer each, and the error follows the rule; on an unsupported one both stay empty |
| `Reports.NothingChangesAfterReport` | wrap.go:326-396 | no continuation after the report changes it, counts a result or alters the byte counts, timestamps or errors it shows |
| `Reports.ClosedAndReportedExactlyOnce` | wrap.go:291-342 | once all calls returned, the underlying Close ran once and the callback got one report if some call was a Close, and neither happened otherwise |
| `Reports.CloseCallsAgree` | wrap.go:291-342 | owner, concurrent waiters and late callers all return what the only underlying Close returned |
| `Reports.ClosedAtIsTheClaim` | wrap.go:310-315 | the close time is the clock read by the step that claims the close, and stays so |
| `Reports.ReportShowsTheClaim` | wrap.go:310-334 | and that is the close time the report shows |
| `Reports.InfoFieldsOverRun` | wrap.go:158-169 | the info from the open never changes; the error shown is the one of the close if the collection there gave info or an error, and the one of the open otherwise |
| `Reports.SealedStaysSealed` | wrap.go:326-335 | after the copy is taken no step of any call changes a field that the copy holds |
| `Invariant.StepKeepsInv` | wrap.go:238-396 | every step keeps: at most one call owns the close, one does while the channel is open, each call's view of the close fields is right, and the counter is the number of calls in flight |
| `Invariant.RunKeepsInv` | wrap.go:238-396 | that invariant holds in every state of every run |
| `Progress.InFlightIsExact` | wrap.go:238-262 | the counter is always the number of calls between their successful begin and their finish, so the clamp at zero never acts |
| `Progress.InFlightNeverRisesAfterClose` | wrap.go:238-262 | once a close has started the counter never rises and the start is never undone |
| `Progress.NoLostWakeup` | wrap.go:250-331 | a parked closer is signalled exactly when nothing is in flight |
| `Progress.NotStuck` | wrap.go:250-342 | whenever some call has begun and not returned, some such call can move |
| `Progress.StuckMeansReturned` | wrap.go:250-342 | a run that cannot go on has all its calls returned |
| `Progress.StepAdvancesItsCall` | wrap.go:291-396 | a step brings its own call nearer to its end; in particular the closer waits at most once |
| `Progress.RunsAreBounded` | wrap.go:291-396 | no run over n calls has more than 8n steps |
| `Ordering.EventsAreOrdered` | wrap.go:238-396 | every event of every run comes only after what must precede it, and none is a panic |
| `Ordering.NothingAdmittedAfterClaim` | wrap.go:238-248 | no I/O is admitted once the close is claimed |
| `Ordering.CallbackComesLast` | wrap.go:321-339 | the callback at close starts after the underlying Close returned and after every call admitted at any time in the run has finished |
| `Ordering.CloseReturnsLast` | wrap.go:293-342 | no Close, the first or any other, returns before the underlying Close, all admitted I/O and the callback are over |
| `Ordering.EachAtMostOnce` | wrap.go:250-342 | claim, underlying Close, wait, broadcast and callback happen at most once each; no closed channel is closed again and no missing condition variable is used |
| `Ordering.CallbackTrace` | wrap.go:115-121 | the callback sees a prefix of open, close if the open report was asked for, and of close alone otherwise |
| `Deadlines.ActsIffItLookedInTime` | wrap.go:264-279 | in every run a returned deadline call looked once; it acted on the connection if and only if it looked before the close was claimed, and returned what the connection gave; otherwise it returned the error of the close if one was published when it looked, and that the connection is closed if not |
| `Deadlines.DeadlinesLookBeforeClaim` | wrap.go:271-278 | every act of a deadline call follows a look that found no close claimed |
| `Deadlines.DeadlineMayComeLate` | wrap.go:264-279 | whatever is wrapped, there is a run in which a deadline call acts right after the underlying Close |
| `Inert.LifelessIsInert` | wrap.go:238-308 | on a wrapper without connection or claimed close, no interleaving of calls changes a field, uses a connection, the callback, the condition variable or the channel; all calls are turned away with the right error |
| `Inert.SnapshotIsInert` | wrap.go:213-236 | the copy handed to the callback at close is such a wrapper |
| `Inert.WrapperOfNilIsInert` | wrap.go:302-308 | so is a wrapper built on nil, and its Close calls all return that the connection is closed |
| `Lifecycle.BytesAreTheSum` | wrap.go:362 | the byte counter is the 64-bit wrapped sum over all results, those of failing calls included, and the plain sum if that fits |
| `Lifecycle.FirstAtIsTheFirstSuccess` | wrap.go:353-361 | the first timestamp is that of the first error-free non-empty transfer with a clock other than zero, and zero if there is none |
| `Lifecycle.LastAtIsTheLastSuccess` | wrap.go:353-361 | the last timestamp is that of the last error-free non-empty transfer, and zero if there is none |
| `Lifecycle.ErrIsTheLastFailure` | wrap.go:363-365 | the recorded error is that of the last transfer that failed with a network error other than a timeout |
| `Timing.TimesAreOrdered` | wrap.go:351-393 | in every state of every run under a clock that does not go back, opened, first and last are in order in both directions when something was transferred, first and last are both zero otherwise, and the close time is no earlier than the opening |
| `Timing.ReportTimesAreOrdered` | wrap.go:326-339 | so are the times in the report handed over at close |
| `Connection.Conn.constructor` | wrap.go:97-108 | a new wrapper has the connection, the callback and the opening time, and nothing counted, started or in flight |
| `Connection.WrapConn` | wrap.go:89-123 | wrapping stores the info taken at open if it is supported, and nothing else differs from a new wrapper |
| `Connection.Conn.BeginIo` | wrap.go:238-248 | counts a call in flight and gives it the connection, or refuses it as closed and changes nothing |
| `Connection.Conn.FinishIo` | wrap.go:250-262 | takes one call off the counter, not below zero, and wakes the closer exactly when a close has started and this was the last |
| `Connection.Count` | wrap.go:352-366 | the updates, one after the other, absorb one result into the counters of a direction |
| `Connection.Conn.CountRead` | wrap.go:352-366 | the receiving counters absorb one result, the sending ones and all else stay |
| `Connection.Conn.CountWrite` | wrap.go:379-393 | the sending counters absorb one result, the receiving ones and all else stay |
| `Connection.Conn.LiveConn` | wrap.go:264-279 | the connection while it is live; otherwise the error of the close, or that it is closed |
| `Connection.Conn.ClaimClose` | wrap.go:292-315 | the first Close of a live connection claims it and stamps the time; any other waits or is told the error, and changes nothing |
| `Connection.Conn.PublishClose` | wrap.go:326-331 | publishes the error and drops the connection, and waits exactly while something is in flight |
| `Connection.Conn.ApplyInfo` | wrap.go:158-169 | stores a report in the field of its stage only, and replaces the error if there is a report or an error |
| `Connection.Conn.Snapshot` | wrap.go:213-236 | a new object that shares no storage with the wrapper, equal to it but without connection, callback, condition variable, channel and calls in flight |
| `Connection.SnapshotThenWriteWrapper` | wrap.go:213-236 | the copy keeps what the wrapper held under any series of writes through the wrapper's two reports, even if these share storage |
| `Connection.SnapshotThenWriteCopy` | wrap.go:213-236 | the wrapper keeps what it held under any series of writes through the two reports of its copy |
| `Connection.Conn.ReleaseWaiters` | wrap.go:317 | the channel is closed and all else stays |
| `Collection.CollectIsSound` | wrap.go:125-156 | whatever connection and system calls answer, a collected report agrees with the socket data it points to, which has all congestion fields of the algorithm it names, or none if there was an error |
| `Collection.CollectOutcome` | wrap.go:125-156 | a report comes back exactly when it is supported, the connection is a TCP connection, no raw-connection or control error occurs, the kernel is not too old and the struct is fetched; it holds that struct, unpacked, and the named algorithm; the error is that of the first step that failed |
| `Collection.StoredReportsAreThoseObtained` | wrap.go:110-169 | in every run each stored report is there exactly when its socket allowed it, and holds what that socket gave |
| `Collection.StoredReportsAreSound` | wrap.go:110-169 | in every run, whatever the sockets answer at open and at close, both stored reports agree with their socket data in that way, together with the error stored beside them |
| `SysInfo.GetTcpInfoOutcome` | pkg/tcpinfo/tcpinfo_linux.go:711-754 | for every combination of answers: when a report comes back, that it holds the unpacked struct unchanged, whose congestion fields are valid, and that the error is the first of: too old, the struct, the algorithm's name, the named algorithm's own call |
| `SysInfo.ResolveCcOutcome` | pkg/tcpinfo/tcpinfo_linux.go:681-708 | the congestion data is that of the named algorithm and complete, and absent after an error |
| `SysInfo.CongestionNumbers` | pkg/tcpinfo/tcpinfo_linux.go:681-708 | each number of the algorithm's own call is reported under its own name, times in nanoseconds |
| `SysInfo.Unpack` | pkg/tcpinfo/tcpinfo_linux.go:387-562 | the assignments under their flags and the option loop give the value whose properties the next rows state |
| `SysInfo.UnpackFields` | pkg/tcpinfo/tcpinfo_linux.go:387-545 | the gated blocks, one after the other, report exactly the fields their flags admit |
| `SysInfo.FieldsAreThoseOfTheKernel` | pkg/tcpinfo/tcpinfo_linux.go:387-545 | the fields of a report are those that the kernel's release has according to the declaration, and the three timeout totals from 6.2 up to 6.7 |
| `SysInfo.TimesAreInNanoseconds` | pkg/tcpinfo/tcpinfo_linux.go:387-545 | exactly ten named fields are scaled, by 1000; all others are as in the struct |
| `SysInfo.StatesAreNamed` | pkg/tcpinfo/tcpinfo_linux.go:590-618 | state numbers 1 to 11 have the names of the kernel's enumeration in its order, all others none |
| `SysInfo.UnpackedAgainstKernel` | pkg/tcpinfo/tcpinfo_linux.go:387-545 | on every supported kernel the reported fields are those its version admits and carry the kernel's own numbers, times in nanoseconds, except that the fields past the requested length are zero in the two windows |
| `SysInfo.OptionsStandForFlags` | pkg/tcpinfo/tcpinfo_linux.go:547-559 | both option lists add up to the flag byte, in flag order without repetition, and only the window scale has a value, that of its own direction |
| `SysInfo.BitfieldsRecombine` | pkg/tcpinfo/tcpinfo_linux.go:397-410 | the two scales make up their byte, and the two indicators, present from 4.9 and from 5.5 on, the low three bits of theirs |
| `SysInfo.PortableNumbers` | pkg/tcpinfo/tcpinfo_linux.go:564-588 | whatever the flags, each number of the portable view is the matching field of the raw struct, times in nanoseconds |
| `SysInfo.KernelReportsAreTrimmed` | pkg/tcpinfo/tcpinfo.go:66-83 | copying a report that came from the kernel loses nothing |
| `RawLayout.LayoutIsAsDocumented` | pkg/tcpinfo/tcpinfo_linux.go:20-80 | offsets computed from widths and alignment are the documented ones, with uint64 aligned to 4 as to 8 |
| `RawLayout.ValidityAgainstLayout` | pkg/tcpinfo/init_linux.go:43-57 | on every supported kernel a field reported as valid ends within the requested length if and only if it is not one of four fields from 4.9 up to 4.10 or three from 6.2 up to 6.7, which start past it |
| `RawLayout.BeyondLengthIsReported` | pkg/tcpinfo/tcpinfo_linux.go:456-545 | each of those fields is in fact reported on each of those kernels |
| `RawLayout.ReportedOnlyWhereIntroduced` | pkg/tcpinfo/tcpinfo_linux.go:20-80 | a field is reported if and only if the kernel's release has it, as the declaration says field by field, or it is one of the three timeout totals from 6.2 up to 6.7 |
| `RawLayout.LengthIsThatOfTheKernel` | pkg/tcpinfo/init_linux.go:43-57 | the length asked for ends with the last field the kernel has, if and only if the kernel is not from 4.9 up to 4.10, where it is 148 |
| `RawLayout.FetchedValueOfValidField` | pkg/tcpinfo/tcpinfo_linux_others.go:12-36 | after the system call a valid field holds the kernel's number, or zero in the two windows |
| `Adaptation.Adapter.Adapt` | pkg/tcpinfo/init_linux.go:63-85 | whatever the flags were, each ends up telling whether the kernel is at least its row; the size is that of the latest row not above, and is left alone on an unsupported kernel; a version is detected once and falls back to the oldest |
| `Adaptation.Adapter.Readapt` | pkg/tcpinfo/init_linux.go:63-85 | after any series of versions the flags are those of the last, and the size follows the series |
| `Adaptation.SizeIsCurrentWhenSupported` | pkg/tcpinfo/init_linux.go:72-84 | after any series the size is that of the last version's own row if that is supported, and at most 248; otherwise it is the one from before |
| `Adaptation.SupportedMeansRow` | pkg/tcpinfo/tcpinfo_linux.go:756-758 | a version is supported exactly when some row is the latest not above it |
| `Adaptation.FallbackIsTheOldest` | pkg/tcpinfo/init_linux.go:64-70 | the fallback is 2.6.2, the least supported version and the oldest row, with 104 bytes |
| `Adaptation.EarlierRowsToo` | pkg/tcpinfo/init_linux.go:76-78 | a version at least as new as a row is at least as new as all rows before it, which is what raising their flags relies on |
| `Kernel.CompareIsLexicographic` | pkg/kernel/kernel.go:24-46 | the result is -1, 0 or 1, and negative exactly when the first version is smaller in kernel, else major, else minor |
| `Kernel.CompareIsTotalPreorder` | pkg/kernel/kernel.go:24-46 | hence it is antisymmetric in sign, total and transitive, with ties for equal triples |
| `Kernel.ParseInStages` | pkg/kernel/kernel.go:48-74 | the two scans into local variables give the function whose properties the next rows state |
| `Kernel.ParsedIsWellFormed` | pkg/kernel/kernel.go:48-74 | any successful parse has 64-bit numbers and a flavor without blanks |
| `Kernel.ReleaseRoundTrip` | pkg/kernel/kernel.go:20-22 | parsing undoes printing if and only if the numbers fit 64 bits and the flavor has no blank and starts with no digit |
| `Kernel.ReleaseNormalises` | pkg/kernel/kernel.go:48-74 | for every string that parses, parse, print, parse gives the first parse if and only if no digit follows a gap after the major number |
| `Kernel.SpaceFreeReleaseNormalises` | pkg/kernel/kernel.go:63-67 | every string without blanks that parses does so, short forms included |
| `Kernel.ShortReleaseIsParsed` | pkg/kernel/kernel.go:63-67 | two numbers followed by something blank-free that starts neither with a digit nor with a dot parse to minor 0 and that as the flavor |
| `Kernel.ScansSixtyFourBits` | pkg/kernel/kernel.go:57 | a printed number is scanned exactly when it fits 64 bits |
| `Kernel.ScanSigned` | pkg/kernel/kernel.go:57 | a plus sign is accepted and changes nothing |
| `Kernel.ScanAfterGap` | pkg/kernel/kernel.go:57 | blanks in front are skipped, and are an error if a newline is among them |
| `Kernel.GapCounterexample` | pkg/kernel/kernel.go:48-74 | "3.8 5" is a string where it does not |
| `InfoHeap.CloneOptions` | pkg/tcpinfo/tcpinfo.go:66-71 | a copy in new storage with equal contents; an empty slice becomes nil |
| `InfoHeap.Sys.Clone` | pkg/tcpinfo/tcpinfo_linux.go:197-206 | a copy with equal value, all of whose storage is new |
| `InfoHeap.Info.Clone` | pkg/tcpinfo/tcpinfo.go:73-83 | a copy with equal value, all of whose storage is new, its `SysInfo` and four option slices included, and the original untouched |
| `InfoHeap.ToInfoObject` | pkg/tcpinfo/tcpinfo_linux.go:564-588 | the portable view has the report's values, points to it and shares its option storage |
| `InfoHeap.CopyThenWriteOriginal` | pkg/tcpinfo/tcpinfo.go:73-83 | a copy keeps its value under any series of writes through the original: to any field of the two structs, to any option, of new slices and of a new `SysInfo` |
| `InfoHeap.CopyThenWriteCopy` | pkg/tcpinfo/tcpinfo.go:73-83 | the original keeps its value under any such series through a copy |
| `InfoHeap.SharedWriteIsSeen` | pkg/tcpinfo/tcpinfo_linux.go:564-588 | without the copy, a write through the portable view shows in the report it was made from |
| `Headers.LessIsTrichotomous` | cmd/httpstat/main.go:560-594 | two different names are ordered one way and not the other |
| `Headers.LessIsTransitive` | cmd/httpstat/main.go:560-594 | the order is transitive on different neighbours |
| `Headers.LessIsIrreflexiveButForServer` | cmd/httpstat/main.go:564-566 | a name precedes itself only if it is `Server` |
| `Headers.SortedListingExists` | cmd/httpstat/main.go:560-594 | every set of names has a sorted listing |
| `Headers.SortedListingIsUnique` | cmd/httpstat/main.go:560-594 | and only one |
| `Headers.BeforeIsDictionaryOrder` | cmd/httpstat/main.go:590-592 | one string is before another exactly when it is a proper prefix or has the smaller rune at the first difference |
| `Headers.SortedMeansLayout` | cmd/httpstat/main.go:560-594 | a list of distinct names is sorted if and only if it is `Server`, then the end-to-end names, then the eight hop-by-hop names of section 13.5.1 of RFC 2616, each class in that order |

## Left out

- The `Close` method as one body: its sections are methods of `Connection.Conn`, and `Protocol` composes them with what
  happens between them, since other calls run there.
- Goroutine scheduling, fairness, the Go memory model and panics of underlying calls or the callback.
- What the report at open contains, and that it keeps the connection; only that it is made, and when.
- Deadline calls in the atomic machine of `Refinement`, where they are invisible; `Deadlines` has what is promised of them.
- The order of LastRxAt and ClosedAt: a read that is drained may finish after the close time was stamped.
- Address accessors, `Context`, `SetReconnects` and the `Reconnects` field, which passes through and may change later.
- System calls, unsafe pointers and the `getsockopt` variants for 386, Darwin and Windows: their answers are arbitrary.
- `Unpack`, `ToInfo` and the info structs for Darwin and Windows: field copying without version gating.
- `ToMap`, JSON marshalling, `Option.String` and `Warnings`: listings and texts.
- Names of TCP states and options and of the three known algorithms are enumerations, not strings.
- Fields of the raw struct are natural numbers; their widths enter into the layout and the bit fields only.
- Invalid UTF-8 in release strings and header names: strings are sequences of runes.
- `GetKernelVersion` and the other files of pkg/kernel, pkg/os and pkg/osversion: queries of the operating system.
- The sorting algorithm behind the headers, the rest of cmd/httpstat and all of cmd/get.
