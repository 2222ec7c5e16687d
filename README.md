# Solitude debug adapter runtime, modelled in Dafny

This project models the core of the Solitude debug adapter for Visual Studio
Code. The adapter drives an external debugging backend for Ethereum
transactions. It keeps a queue of backend commands (`step`, `info_locals`,
`backtrace`, `continue`, `break`, `delete`) and sends them one at a time. It
folds each reply of the backend (`info_locals`, `backtrace`, `break`,
`revert`, `end`, `step`, `breakpoint`) into the state of the session: the
variables, the reconstructed call stack, the exception and breakpoint flags,
and the registry of breakpoints. It then emits a stop event to the editor
session and sends the next command.

The modules follow the source files:

| module | file | what it is |
|---|---|---|
| `Queue` (task_queue.dfy) | src/taskQueue.ts | the `TaskQueue` class over a `seq` of commands; the locator `<basename>:<line>` |
| `Contracts` (contract_manager.dfy) | src/runtime/contractManager.ts | the one-entry source cache `ContractManager` |
| `Frames` (frames.dfy) | src/runtime/solitudeDebugSession.ts, src/runtime/runtime.ts | stack frames and the specification of how a backtrace grows or shrinks the stack, with the two loops that do it |
| `Session` (solitude_debug_session.dfy) | src/runtime/solitudeDebugSession.ts | the `SolitudeDebugSession` class |
| `Registry` (registry.dfy) | src/runtime/runtime.ts | the breakpoint map as values: set, clear and verify |
| `Protocol` (protocol.dfy) | src/runtime/runtime.ts, src/runtime.ts | the backend's replies as a datatype; reading the reported locals |
| `Runtime` (runtime.dfy) | src/runtime/runtime.ts | the `Runtime` class and the reference function `Processed` for one reply |
| `Legacy` (legacy_runtime.dfy) | src/runtime.ts | the earlier `Runtime` class with its own command array and line-shifting verification |
| `Helpers` (helpers.dfy) | src/helpers.ts | the four path converters |
| `Text`, `Wrappers` | — | split, join, basename, digits and trimming on `seq<char>`; `Option` |

The outside world is represented as follows:

- A command written to the backend is appended to the log `sent`.
- An event emitted to the session is appended to the log `events`.
- A call on the editor helper is appended to the log `editor`.
- Reading a file is a lookup in a parameter `files: map<string, string>`. A path missing from the map is a read that throws.
- A handler that can throw returns `ok`. When `ok` is false, the state is what the source leaves behind when it throws part way through.
- A crash of the source, such as `find` returning `undefined` or indexing an empty array, becomes a precondition.

Each state-changing method is proved against a specification function of the
old state. Examples:

- `Runtime.Runtime.ProcessMessage` equals `Runtime.Processed`.
- `Session.SolitudeDebugSession.AddNewStackFrameIfPossible` equals `Frames.Grown`.
- `Runtime.Runtime.VerifyBreakpoints` equals `Runtime.BreakpointsVerified`.

What the source promises is then proved as lemmas about those functions.

Where the specification of the system and the code disagree, the model
follows the code, with one exception: the calls of src/runtime/runtime.ts on
its task queue (see the `Runtime.Runtime` lines under "## Left out"):

- **Breakpoint keys.** In src/runtime/runtime.ts the lookup in `setBreakPoint` uses the path as given, but the store uses its basename. So two full paths with the same file name do not share a bucket: the second replaces the first's bucket with a new one (`Registry.AddBreakpointBuckets`). A full path never finds a bucket in `clearBreakPoint` or `clearBreakpoints` (`Registry.FullPathMisses`).
- **Verification bound.** `verifyBreakpoints` compares lines with `getContractLines.length`. That is the number of parameters of the getter, 0, not the number of lines. So no breakpoint on line 0 or later is ever verified (`Registry.NothingVerifiedAtArity`, `Runtime.BreakReplyValidates`). The bound is a parameter of `Runtime.Runtime.VerifyBreakpoints`, and `ProcessMessage` passes `Registry.ContractLinesArity`, which is 0.
- **Contract paths without a `/`.** `convertContractPathToWindowFormat` on a path with no `/` does not throw. It returns `"undefined:"`.
- **Failed reads.** `setOrUpdateContractSource` and `loadSource` record the new path before they read. A failed read therefore leaves the new path with the old lines.

## Model

| member | source | states |
|---|---|---|
| Queue.TaskQueue.constructor | src/taskQueue.ts:13-16 | a new queue holds exactly one `step` |
| Queue.TaskQueue.ProcessTaskQueue | src/taskQueue.ts:18-24 | on a non-empty queue returns the head and leaves exactly the tail; on an empty one returns nothing and changes nothing |
| Queue.TaskQueue.IsEmpty | src/taskQueue.ts:26-28 | true exactly when the queue holds no command |
| Queue.TaskQueue.Empty | src/taskQueue.ts:30-32 | the queue is empty afterwards, whatever it held |
| Queue.TaskQueue.GetInfoCommand | src/taskQueue.ts:34-37 | appends `info_locals` then `backtrace` |
| Queue.TaskQueue.StepCommand | src/taskQueue.ts:39-42 | appends exactly `step`, `info_locals`, `backtrace`; the old contents stay an unchanged prefix |
| Queue.TaskQueue.ContinueCommand | src/taskQueue.ts:44-47 | appends exactly `continue`, `info_locals`, `backtrace`; the old contents stay an unchanged prefix |
| Queue.TaskQueue.SetBreakpointCommand | src/taskQueue.ts:49-53 | prepends one `break` for the text after the last `/` of the path, a colon and the line; the old queue is the suffix |
| Queue.TaskQueue.SetFunctionBreakpointCommand | src/taskQueue.ts:55-57 | prepends `break` with the function name and changes nothing else |
| Queue.TaskQueue.ClearBreakpointCommand | src/taskQueue.ts:59-61 | prepends `delete` with the given argument and changes nothing else |
| Queue.LocatorIgnoresDirectory | src/taskQueue.ts:50-51 | a locator depends only on the file name: any directory in front gives the same locator |
| Queue.BreakOvertakes | src/taskQueue.ts:18-53 | a prepended `break` is the next command taken, ahead of everything queued, and the queue is then as before |
| Queue.StepDrainsInOrder | src/taskQueue.ts:18-42 | draining the queue after a step yields the earlier commands, then `step`, `info_locals`, `backtrace`, in append order |
| Contracts.Lines | src/runtime/contractManager.ts:15 | the lines of a file are one more than its newlines, contain no newline, and joined with newlines give the content back |
| Contracts.ContractManager.constructor | src/runtime/contractManager.ts:8-10 | a new cache is at line 0 with no source and no lines |
| Contracts.ContractManager.SetOrUpdateContractSource | src/runtime/contractManager.ts:12-17 | the source becomes the path; with the same path nothing is read and the lines stay; with another path the lines become the file split on newlines, or the read fails and the old lines stay |
| Contracts.ContractManager.SetContractLine | src/runtime/contractManager.ts:19-21 | the current line becomes the argument; source and lines are untouched |
| Contracts.ContractManager.GetSourceFile | src/runtime/contractManager.ts:23-25 | the recorded path, `None` before the first load |
| Contracts.ContractManager.GetCurrentLine | src/runtime/contractManager.ts:27-29 | the current line |
| Contracts.ContractManager.GetContractLines | src/runtime/contractManager.ts:31-33 | the cached lines |
| Contracts.LoadTwice | src/runtime/contractManager.ts:12-17 | loading the same path twice in a row: the first load's result and lines are those of one load, the second load succeeds and changes nothing |
| Text.JoinSplitReplace | src/helpers.ts:12-15 | splitting on a separator and joining with another replaces every separator |
| Text.JoinSplit | src/helpers.ts:26-28 | splitting on a separator and joining with it gives the string back |
| Text.SplitJoin | src/helpers.ts:26-28 | joining parts free of the separator and splitting gives the parts back |
| Text.SplitLength | src/runtime/contractManager.ts:15 | a split has one more part than the string has separators |
| Text.Basename | src/taskQueue.ts:50-51 | the last `/`-segment: free of `/`, a suffix of the path, preceded by `/` when shorter than the path, the path itself when it has no `/` |
| Text.DigitsRoundTrip | src/runtime/solitudeDebugSession.ts:39 | reading back the decimal digits of a number gives the number |
| Helpers.ConvertPathToWindowFormat | src/helpers.ts:3-8 | no `/` in the result; it is the input without its first character and with every `/` made a backslash; one character shorter for non-empty input |
| Helpers.ConvertContractPathToWindowFormat | src/helpers.ts:10-16 | drops the segment before the first `/`, puts `:` after the next segment and joins the rest with backslashes; `"undefined:"` when there is no `/` |
| Helpers.ContractPathExample | src/helpers.ts:10-16 | `/c/Users/x` becomes `c:\Users\x` |
| Helpers.ConvertLinuxWSLPathToWindowFormat | src/helpers.ts:18-30 | a readable path is returned unchanged; otherwise `/mnt` is put in front and only the second segment is lowercased, four characters longer; fewer than three segments throws |
| Helpers.ConvertOSPathToWindowFormat | src/helpers.ts:32-37 | drops the first two backslash segments; `""` with fewer than three segments; always a suffix of the input |
| Frames.FindByIndex | src/runtime/solitudeDebugSession.ts:49 | finds a reported frame exactly when one has the index, and it is the first such |
| Frames.Copies | src/runtime/solitudeDebugSession.ts:82 | n copies of the variables list, each equal to it |
| Frames.Relabel | src/runtime/solitudeDebugSession.ts:63-65 | every held frame i is relabelled i+1 and nothing else changes |
| Frames.Backfill | src/runtime/solitudeDebugSession.ts:73-83 | puts the invented frames 1 .. count-2 in front of the kept ones and one copy of the variables per invented frame in front of the stored lists |
| Frames.GrownQuiet | src/runtime/solitudeDebugSession.ts:61-94 | without an interrupt the stack and the variables lists grow by exactly one; the new frame 0 has the given location and live variables; old frame i becomes i+1; only the outermost of two or more frames gets the given location |
| Frames.GrownInterrupted | src/runtime/solitudeDebugSession.ts:70-84 | on an interrupt with one held frame and F >= 2 reported frames the stack has exactly F frames labelled 0 .. F-1; the F-2 invented ones are marked invalid, at the given location, and each gets a copy of the variables |
| Frames.GrownInterruptedDeep | src/runtime/solitudeDebugSession.ts:70-84 | on an interrupt with two or more held frames the stack has F+1 frames, and stack and variables lists keep equal lengths only when exactly two frames were held |
| Frames.PoppedKeepsLengthsEqual | src/runtime/solitudeDebugSession.ts:101-104 | dropping the front of both arrays keeps equal lengths equal and removes exactly frame 0 |
| Frames.WithTop | src/runtime/solitudeDebugSession.ts:96-99 | only frame 0's file and line change |
| Frames.AfterBacktrace | src/runtime/runtime.ts:196-235 | after a backtrace frame 0 carries the cached file and line |
| Frames.BacktraceOneStep | src/runtime/runtime.ts:196-235 | more reported frames than held adds exactly one frame without an interrupt, however many more; fewer drops exactly the front frame and its variables; an equal count keeps all frames but the top |
| Frames.FrameNumberOfLocal | src/runtime/solitudeDebugSession.ts:39 | `local_<n>` reads back frame number n |
| Frames.DefaultFrameNumber | src/runtime/solitudeDebugSession.ts:38-40 | the default id `local_0` reads as frame 0 |
| Frames.VariablesForLocal | src/runtime/solitudeDebugSession.ts:38-44 | `local_0` is the pending list; `local_<n>` for n > 0 is the stored list n, or nothing past the end |
| Session.SolitudeDebugSession.constructor | src/runtime/solitudeDebugSession.ts:20-23 | empty stack and variables lists, both flags clear |
| Session.SolitudeDebugSession.ClearVariables | src/runtime/solitudeDebugSession.ts:25-27 | the pending variables become empty |
| Session.SolitudeDebugSession.AddVariable | src/runtime/solitudeDebugSession.ts:29-36 | appends one record with the given name, type and value and reference 0 |
| Session.SolitudeDebugSession.GetVariables | src/runtime/solitudeDebugSession.ts:38-44 | the default id `local_0` gives the pending list; any list given is the pending one or a stored one; an id without a frame number gives nothing |
| Session.SolitudeDebugSession.UpdateStackFrame | src/runtime/solitudeDebugSession.ts:46-58 | the stack has one frame per reported frame; position i carries index i, the unit name and line of reported frame i, and is marked invalid; needs every index 0 .. n-1 |
| Session.SolitudeDebugSession.RelabelFrames | src/runtime/solitudeDebugSession.ts:63-65 | every frame moves one place outwards |
| Session.SolitudeDebugSession.BackfillFrames | src/runtime/solitudeDebugSession.ts:70-84 | keeps two frames, labels the outer one count-1, and invents the frames in between with copies of the variables |
| Session.SolitudeDebugSession.AddNewStackFrameIfPossible | src/runtime/solitudeDebugSession.ts:61-94 | the new stack and variables lists are `Frames.Grown` of the old ones |
| Session.SolitudeDebugSession.UpdateContractSourceLineInTopStackFrame | src/runtime/solitudeDebugSession.ts:96-99 | only frame 0 moves to the given location; needs a non-empty stack |
| Session.SolitudeDebugSession.RemoveLastStackFrame | src/runtime/solitudeDebugSession.ts:101-104 | drops the front of the stack and of the variables lists |
| Session.SolitudeDebugSession.SetExceptionFoundFlag | src/runtime/solitudeDebugSession.ts:110-112 | the exception flag is set |
| Session.SolitudeDebugSession.SetExceptionMessage | src/runtime/solitudeDebugSession.ts:118-120 | the message is stored |
| Session.SolitudeDebugSession.GetStack | src/runtime/solitudeDebugSession.ts:106-108 | the current stack |
| Session.SolitudeDebugSession.IsExceptionFound | src/runtime/solitudeDebugSession.ts:114-116 | the exception flag |
| Session.SolitudeDebugSession.GetLastExceptionMessage | src/runtime/solitudeDebugSession.ts:122-124 | the stored message, `None` before any |
| Protocol.ReadLocals | src/runtime/runtime.ts:175-185 | one record per reported local, in order, typed `string` with the value's display string and reference 0 |
| Registry.VerifyBucket | src/runtime/runtime.ts:153-164 | the bucket keeps its length; exactly the unverified entries below the bound become verified, none is un-verified, ids, lines and paths are kept |
| Registry.VerifyIdempotent | src/runtime/runtime.ts:153-164 | verifying twice is verifying once, and the second pass validates nothing |
| Registry.AddThenVerify | src/runtime/runtime.ts:153-164 | a new unverified breakpoint below the bound, added to a verified bucket, is the one entry validated, with its own id |
| Registry.NothingVerifiedAtArity | src/runtime/runtime.ts:158 | with the bound the code uses, no entry on line 0 or later is verified or validated |
| Registry.VerifyEntries | src/runtime/runtime.ts:157-162 | the loop computes the verified bucket and the validated entries in order |
| Registry.AddBreakpointBuckets | src/runtime/runtime.ts:110-116 | keys stay basenames; a path with a directory replaces its basename's bucket with a one-entry bucket; a bare name already present gets the entry appended; other keys are untouched |
| Registry.FullPathMisses | src/runtime/runtime.ts:128-145 | a path with a directory is never a key, so clearing by it removes nothing |
| Registry.ClearFirst | src/runtime/runtime.ts:128-141 | a missing key changes nothing and gives nothing; otherwise the oldest entry is removed and returned, whatever its line |
| Runtime.PythonArgs | src/runtime/runtime.ts:43-55 | five arguments ending with the transaction hash, the second starting with the configuration directory |
| Runtime.ReplyStopsOnce | src/runtime/runtime.ts:260-291 | a reply other than `end`, `revert` and `break` that does not throw emits exactly one stop event: with an empty queue exception beats breakpoint beats step; it sends at most the head of the queue; a breakpoint stop consumes the flag |
| Runtime.StoppedFacts | src/runtime/runtime.ts:277-291 | the tail emits one stop event, sends the head when there is one, and clears the breakpoint flag only on a breakpoint stop |
| Runtime.FailedReadOnlyMovesSource | src/runtime/runtime.ts:237-272 | a reply that throws changes nothing but the recorded source path, which then names an unreadable file |
| Runtime.HandledFlags | src/runtime/runtime.ts:174-275 | the branches leave both flags alone, except that a `breakpoint` reply that does not throw sets the breakpoint flag and a `revert` that does not throw sets the exception flag |
| Runtime.HandledQueue | src/runtime/runtime.ts:174-275 | outside `revert` and `break` no branch touches the queue, the sent commands, the events or the breakpoint registry |
| Runtime.ShownKeeps | src/runtime/runtime.ts:259-276 | showing a `step` or `breakpoint` location touches neither the queue, the logs, the flags nor the registry |
| Runtime.HandledFailure | src/runtime/runtime.ts:237-272 | a branch that throws has only recorded a new source path that names no readable file |
| Runtime.LoadFailure | src/runtime/contractManager.ts:12-17 | a load that throws records the new path, which differs from the old one and is not readable, and changes nothing else |
| Runtime.RevertHandsOver | src/runtime/runtime.ts:242-254 | a `revert` sets the exception flag and message, moves to its location, flushes the queue, sends `info_locals` then `backtrace`, leaves the queue empty and stops as a step |
| Runtime.ExceptionIsSticky | src/runtime/runtime.ts:174-292 | the exception flag is never cleared, and only a `revert` sets it |
| Runtime.RevertThenStopOnException | src/runtime/runtime.ts:277-282 | after a `revert` the next stopping reply reports the exception and sends nothing |
| Runtime.BreakReplyValidates | src/runtime/runtime.ts:237-241 | a successful `break` verifies the named bucket and emits one validation per flipped entry before the stop; with nonnegative lines it changes no bucket and emits no validation |
| Runtime.EndIsSilent | src/runtime/runtime.ts:255-259 | `end` clears the editor and emits `end`; nothing is sent and the queue is kept |
| Runtime.Runtime.constructor | src/runtime/runtime.ts:16-37 | a fresh queue holding one `step`, a fresh cache, no breakpoints, id counter 1, empty stack and logs |
| Runtime.Runtime.SetSolitudeConfigurationPath | src/runtime/runtime.ts:57-59 | stores the configuration directory |
| Runtime.Runtime.SetPythonPath | src/runtime/runtime.ts:61-63 | stores the interpreter path |
| Runtime.Runtime.Start | src/runtime/runtime.ts:65-75 | launches the backend with `PythonArgs`, emits `initialized` and steps |
| Runtime.Runtime.Disconnect | src/runtime/runtime.ts:77-79 | clears the editor |
| Runtime.Runtime.SourceFile | src/runtime/runtime.ts:39-41 | the source recorded by the cache |
| Runtime.Runtime.GetVariables | src/runtime/runtime.ts:96-102 | the default id `local_0` gives the pending list; any list given is the pending one or a stored one; an id without a frame number gives nothing |
| Runtime.Runtime.GetStack | src/runtime/runtime.ts:104-106 | the current stack |
| Runtime.Runtime.GetLastException | src/runtime/runtime.ts:147-149 | the stored exception message |
| Runtime.Runtime.ProcessTaskQueue | src/runtime/runtime.ts:166-172 | sends the head of the queue if any and removes it |
| Runtime.Runtime.GetInfo | src/runtime/runtime.ts:81-84 | queues `info_locals`, `backtrace` and sends the head |
| Runtime.Runtime.Continue | src/runtime/runtime.ts:86-89 | queues `continue`, `info_locals`, `backtrace` and sends the head |
| Runtime.Runtime.Step | src/runtime/runtime.ts:91-94 | queues `step`, `info_locals`, `backtrace` and sends the head |
| Runtime.Runtime.SetBreakPoint | src/runtime/runtime.ts:108-121 | returns an unverified breakpoint with the current id and the counter goes up by one; the map is `AddBreakpoint` of the old one; its `break` is sent at once, ahead of everything queued, which stays queued |
| Runtime.Runtime.SetFunctionBreakPoint | src/runtime/runtime.ts:123-126 | the `break` for the name is sent at once and the queue is kept |
| Runtime.Runtime.ClearBreakPoint | src/runtime/runtime.ts:128-141 | the map and result are `ClearFirst`; a removed entry's `delete` is sent at once; a missing key sends nothing |
| Runtime.Runtime.ClearBreakpoints | src/runtime/runtime.ts:143-145 | removes the key |
| Runtime.Runtime.VerifyBreakpoints | src/runtime/runtime.ts:153-164 | the new state is `BreakpointsVerified` of the old: a known key loads its file and verifies its bucket, other buckets untouched |
| Runtime.Runtime.GrowStack | src/runtime/runtime.ts:196-229 | the new stack and variables lists are `Frames.Grown` of the old ones |
| Runtime.Runtime.UpdateStack | src/runtime/runtime.ts:186-236 | the new stack and variables lists are `Frames.AfterBacktrace` of the old ones |
| Runtime.Runtime.ShowLocation | src/runtime/runtime.ts:260-272 | a successful reply with a path loads it, sets the line and highlights the range |
| Runtime.Runtime.Revert | src/runtime/runtime.ts:242-254 | the new state is `Reverted` of the old |
| Runtime.Runtime.Stop | src/runtime/runtime.ts:277-291 | the new state is `Stopped` of the old |
| Runtime.Runtime.Handle | src/runtime/runtime.ts:175-276 | the new state is `Handled` of the old |
| Runtime.Runtime.ProcessMessage | src/runtime/runtime.ts:174-292 | the new state and `ok` are `Processed` of the old state and the reply |
| Legacy.VerifiedEntryBounds | src/runtime.ts:136-149 | verification keeps the id, never un-verifies, leaves verified and out-of-range entries alone, moves an entry by at most one line, and validates exactly what it marks verified |
| Legacy.BlankLineMovesDown | src/runtime.ts:138-147 | a breakpoint on a blank line lands, verified, on the next line |
| Legacy.PlainLineStays | src/runtime.ts:138-147 | a breakpoint on a line starting with neither `+` nor `-` and not mentioning `lazy` is verified where it is |
| Legacy.VerifiedBucket | src/runtime.ts:136-150 | every entry of the bucket is verified by the same rule |
| Legacy.VerifyEntry | src/runtime.ts:137-148 | the body of the loop for one entry computes exactly `VerifiedEntry`: the adjusted entry and whether it was validated |
| Legacy.VerifyEntries | src/runtime.ts:136-150 | the loop computes the verified bucket and the validations in order |
| Legacy.IndexOfLine | src/runtime.ts:111 | the first entry on the line, or the length when there is none |
| Legacy.RemoveAtLine | src/runtime.ts:111-115 | removing the found entry takes out exactly that entry and keeps the rest |
| Legacy.BacktraceStack | src/runtime.ts:173-183 | one frame per reported frame, in order, with its index, all at the current file and line |
| Legacy.LegacyRuntime.constructor | src/runtime.ts:20-34 | line 0, no source, no breakpoints, id counter 1, empty command array |
| Legacy.LegacyRuntime.SetSolitudeConfigurationPath | src/runtime.ts:51-53 | stores the configuration directory |
| Legacy.LegacyRuntime.SetPythonPath | src/runtime.ts:55-57 | stores the interpreter path |
| Legacy.LegacyRuntime.ProcessTaskQueue | src/runtime.ts:154-159 | sends and removes the head, if any |
| Legacy.LegacyRuntime.Step | src/runtime.ts:74-81 | appends `step`, `info_locals`, `backtrace`, `step` and sends the head: the array grows by three |
| Legacy.LegacyRuntime.Continue | src/runtime.ts:70-72 | exactly the effect of `Step` |
| Legacy.LegacyRuntime.Start | src/runtime.ts:59-68 | launches the backend and steps |
| Legacy.LegacyRuntime.LoadSource | src/runtime.ts:125-130 | records the file; reads only when it changes; a failed read keeps the old lines |
| Legacy.LegacyRuntime.VerifyBreakpoints | src/runtime.ts:132-152 | a known key loads its file, verifies its bucket against the lines and emits one validation per verified entry |
| Legacy.LegacyRuntime.AddEntry | src/runtime.ts:94-101 | the entry gets the next id, the id counter grows by one, and the entry is appended to the bucket of the path, which is created when missing |
| Legacy.LegacyRuntime.SetBreakPoint | src/runtime.ts:94-106 | appends an entry with the next id to the bucket of the full path, verifies the bucket at once and returns the entry as verification left it |
| Legacy.LegacyRuntime.Variables | src/runtime.ts:83-85 | the current variables |
| Legacy.LegacyRuntime.Stack | src/runtime.ts:87-92 | the whole stack with its length as the count, whatever range is asked |
| Legacy.LegacyRuntime.ClearBreakPoint | src/runtime.ts:108-119 | removes and returns the first entry on the line; otherwise returns nothing and keeps the map |
| Legacy.LegacyRuntime.ClearBreakpoints | src/runtime.ts:121-123 | removes the key |
| Legacy.LegacyRuntime.ProcessMessage | src/runtime.ts:161-195 | locals and backtrace replies rebuild variables and stack; a successful reply with a location loads it, sets the line and emits a step event; every reply that does not throw sends at most the head |

## Left out

- Launching the backend is left out. The `PythonShell` process, `process.chdir`, the JSON mode and the `-m` option are not modelled. `start` records the interpreter path and arguments, and commands go to the log `sent`.
- `sendEvent` defers through `setImmediate`. The model appends events at once, so no interleaving with other callbacks is modelled.
- The editor helper is recorded as a log of calls. src/editorHelper.ts is not part of this model.
- src/extension.ts and src/debug.ts are not part of this model: configuration, network and Debug Adapter Protocol glue.
- Breakpoints, frames and variables are values, not shared objects. In the source, the breakpoint returned by `setBreakPoint` and carried by a `breakpointValidated` event is the object that later verifications mutate. The model returns and logs a copy. Likewise `variablesFrame.unshift(variables)` shares the live array, and a later `addVariable` without `clearVariables` would show in that frame.
- Fields that start `undefined` start empty or `None`. In the source, `addVariable` before `clearVariables`, or `stack()` of the legacy runtime before a backtrace, would throw.
- Frame indices and lines are integers. The source mixes strings (`${index + 1}`) and numbers.
- Frames.FrameNumber: only plain decimal digits are read as a number. JavaScript's unary `+` also accepts white space, signs, exponents and hexadecimal, which the model reads as no number.
- Text.Trim: only ASCII white space is trimmed, not the Unicode white space of `String.prototype.trim`.
- Text.ToLowerAscii: only ASCII letters are lowercased.
- Runtime.Runtime.ClearBreakPoint: an empty bucket, where the source throws on `bp.line`, is excluded by a precondition.
- Runtime.Runtime.ProcessMessage: a `backtrace` that would make the source throw is excluded by a precondition. That covers a missing reported frame 0, a missing intermediate frame on an interrupt, and indexing an empty stack.
- Legacy.LegacyRuntime.ProcessMessage: a successful reply of a type without `code` is excluded by a precondition, because the source throws on it.
- Legacy.LegacyRuntime.VerifyBreakpoints: an unverified entry on a negative line below the line count, where the source throws on `trim` of `undefined`, is excluded by a precondition.
- Legacy.LegacyRuntime.SetBreakPoint: the same throw on `trim` of `undefined`, for the bucket it verifies, is excluded by a precondition.
- Session.SolitudeDebugSession.AddNewStackFrameIfPossible: the breakpoint flag of this class is never set by the source. It is kept as a field that only the constructor writes, so only the exception flag triggers the backfill.
- Runtime.Runtime.GetInfo: `getInfo` calls `taskQueue.getInfo()` (src/runtime/runtime.ts:82), which is not a method of `TaskQueue` (src/taskQueue.ts:10-62), so as written it throws before anything is queued or sent. The model calls `getInfoCommand` instead.
- Runtime.Runtime.Continue: `continue` calls `taskQueue.continue()` (src/runtime/runtime.ts:87), which `TaskQueue` does not define, so as written it throws before anything is queued or sent. The model calls `continueCommand` instead.
- Runtime.Runtime.Step: `step` calls `taskQueue.step()` (src/runtime/runtime.ts:92), which `TaskQueue` does not define, so as written it throws before anything is queued or sent. The model calls `stepCommand` instead.
- Runtime.Runtime.Start: as written `start` throws in its final `step()` (src/runtime/runtime.ts:74), after `initialized` is emitted. The model steps as described for `Runtime.Runtime.Step`.
- Runtime.Runtime.SetBreakPoint: `setBreakPoint` calls `taskQueue.setBreakpoint(basename + ':' + line)` (src/runtime/runtime.ts:117), which `TaskQueue` does not define, so as written it throws after the entry is stored and the id counter has moved, and no `break` is sent. The model calls `setBreakpointCommand(path, line)`, which builds the same `basename:line` argument.
- Runtime.Runtime.SetFunctionBreakPoint: `setFunctionBreakPoint` calls `taskQueue.setBreakpoint(name)` (src/runtime/runtime.ts:124), which `TaskQueue` does not define, so as written it throws and sends nothing. The model calls `setFunctionBreakpointCommand(name)`.
- Runtime.Runtime.ClearBreakPoint: `clearBreakPoint` calls `taskQueue.clearBreakpoint(...)` (src/runtime/runtime.ts:134), which `TaskQueue` does not define, so as written a known key throws before the entry is removed and nothing is sent. The model calls `clearBreakpointCommand` with the same `basename:line` argument.
- Runtime.Runtime.Revert: as written a `revert` reply throws in its final `getInfo()` (src/runtime/runtime.ts:253), after the location, the exception state and the emptied queue are recorded, and sends nothing. The model queues and sends as described for `Runtime.Runtime.GetInfo`.
- Runtime.Runtime.Handle: a `revert` reply ends in `getInfo()` (src/runtime/runtime.ts:253), so as written its handling throws as described for `Runtime.Runtime.Revert`. The model handles it with `getInfoCommand`; every other reply type calls nothing missing.
- Runtime.Runtime.ProcessMessage: for a `revert` reply the throw in `getInfo()` means that, as written, the stop events (src/runtime/runtime.ts:277-291) are never reached and nothing is returned. The model goes on to `Runtime.Stopped` after the substituted `getInfoCommand`.
