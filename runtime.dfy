/** The debug runtime of src/runtime/runtime.ts. It turns the session's
    requests into backend commands through the task queue, and each reply of
    the backend into state changes followed by one stop event. The backend
    channel is the log `sent`, the events emitted to the session are the log
    `events`, the calls on the editor helper the log `editor`; reading a file
    is the map `files` from path to content. */
module Runtime {
  import opened Wrappers
  import opened Text
  import opened Queue
  import opened Contracts
  import opened Frames
  import opened Protocol
  import opened Registry

  datatype Event =
    | Initialized
    | StopOnStep
    | StopOnBreakpoint
    | StopOnException
    | BreakpointValidated(breakpoint: Breakpoint)
    | End

  datatype EditorCall = UpdateRange(start: int, end: int) | RenderCodeInfo(line: int) | ClearEditor

  /** How the backend process is launched: `python -m solitude <args>`. */
  datatype ShellOptions = ShellOptions(pythonPath: string, args: seq<string>)

  /** Everything a reply can change: the runtime's own fields together with
      those of its task queue and its contract manager. */
  datatype RuntimeState = RuntimeState(
    exceptionMessage: Option<string>,
    contractSource: Option<string>,
    contractLines: seq<string>,
    currentLine: int,
    breakPoints: map<string, seq<Breakpoint>>,
    variables: seq<Variable>,
    variablesFrame: seq<seq<Variable>>,
    stack: seq<Frame>,
    exceptionFound: bool,
    breakpointFound: bool,
    tasks: seq<Command>,
    sent: seq<Command>,
    events: seq<Event>,
    editor: seq<EditorCall>)

  /** A state after one reply, and whether the handler returned normally
      (`false`: a file read threw part way through). */
  datatype Outcome = Outcome(state: RuntimeState, ok: bool)

  /** The arguments of `getPythonOptions`. */
  function PythonArgs(configurationPath: string, txHash: string): (args: seq<string>)
    ensures |args| == 5 && args[4] == txHash
    ensures configurationPath <= args[1]
  {
    ["--config", configurationPath + "/solitude.yaml", "debug", "--json", txHash]
  }

  function ValidationEvents(bps: seq<Breakpoint>): seq<Event>
  {
    seq(|bps|, i requires 0 <= i < |bps| => BreakpointValidated(bps[i]))
  }

  /** `processTaskQueue`: the head of the queue, if any, is sent. */
  function Dispatched(s: RuntimeState): RuntimeState
  {
    if s.tasks == [] then s else s.(sent := s.sent + [s.tasks[0]], tasks := s.tasks[1..])
  }

  /** The event that ends the handling of a reply: with nothing left to do
      an exception wins over a breakpoint, and anything else is a step. */
  function StopEvent(queueEmpty: bool, exceptionFound: bool, breakpointFound: bool): Event
  {
    if queueEmpty && exceptionFound then StopOnException
    else if queueEmpty && breakpointFound then StopOnBreakpoint
    else StopOnStep
  }

  /** The tail of `processMessage`: the stop event, then the next command;
      a breakpoint stop sends nothing and consumes the flag. */
  function Stopped(s: RuntimeState): RuntimeState
  {
    var e := StopEvent(s.tasks == [], s.exceptionFound, s.breakpointFound);
    if e == StopOnBreakpoint then s.(events := s.events + [e], breakpointFound := false)
    else Dispatched(s.(events := s.events + [e]))
  }

  /** `setOrUpdateContractSource(path)`: the path is recorded even when the
      read throws. */
  function Loaded(s: RuntimeState, path: string, files: map<string, string>): Outcome
  {
    Outcome(s.(contractSource := Some(path),
               contractLines := LoadedLines(s.contractSource, s.contractLines, path, files)),
            Loads(s.contractSource, path, files))
  }

  /** The location part of a `step` or `breakpoint` reply. */
  function Shown(s: RuntimeState, status: string, location: Option<Code>, files: map<string, string>): Outcome
  {
    if status != "ok" || location.None? then Outcome(s, true)
    else
      var code := location.value;
      var l := Loaded(s, code.path, files);
      if !l.ok then l
      else Outcome(l.state.(currentLine := code.lineIndex,
                            editor := s.editor + [UpdateRange(code.linePos, code.linePos + code.lineLength),
                                                  RenderCodeInfo(code.lineIndex)]), true)
  }

  /** `verifyBreakpoints(path)`, lines compared with `bound`. */
  function BreakpointsVerified(s: RuntimeState, path: string, files: map<string, string>, bound: int): Outcome
  {
    if path !in s.breakPoints then Outcome(s, true)
    else
      var l := Loaded(s, path, files);
      if !l.ok then l
      else Outcome(l.state.(breakPoints := s.breakPoints[path := VerifyBucket(s.breakPoints[path], bound)],
                            events := s.events + ValidationEvents(Validated(s.breakPoints[path], bound))), true)
  }

  /** The `revert` branch: the location is shown, the exception recorded,
      pending work dropped and the locals and backtrace requested. */
  function Reverted(s: RuntimeState, code: Code, files: map<string, string>): Outcome
  {
    var l := Loaded(s, code.path, files);
    if !l.ok then l
    else Outcome(Dispatched(l.state.(currentLine := code.lineIndex,
                                     editor := s.editor + [UpdateRange(code.linePos, code.linePos + code.lineLength)],
                                     exceptionMessage := Some(code.text),
                                     exceptionFound := true,
                                     tasks := [InfoLocals, Backtrace])), true)
  }

  /** What a reply needs in order not to crash. */
  predicate ReplyDefined(s: RuntimeState, msg: Message)
  {
    msg.response.BacktraceReply? ==>
      BacktraceDefined(s.stack, msg.response.frames, s.breakpointFound || s.exceptionFound)
  }

  /** The branch of `processMessage` for the reply's type, before the tail. */
  function Handled(s: RuntimeState, msg: Message, files: map<string, string>): Outcome
    requires ReplyDefined(s, msg)
  {
    match msg.response
    case InfoLocalsReply(locals) =>
      Outcome(s.(variables := seq(|locals|, i requires 0 <= i < |locals| => LocalVariable(locals[i]))), true)
    case BacktraceReply(frames) =>
      var t := AfterBacktrace(Snapshot(s.stack, s.variablesFrame), s.variables, frames,
                              s.contractSource, s.currentLine, s.breakpointFound || s.exceptionFound);
      Outcome(s.(stack := t.stack, variablesFrame := t.variablesFrame), true)
    case BreakReply(name) =>
      if msg.status == "ok" then BreakpointsVerified(s, name, files, ContractLinesArity) else Outcome(s, true)
    case RevertReply(code) => Reverted(s, code, files)
    case EndReply => Outcome(s, true)
    case StepReply(location) => Shown(s, msg.status, location, files)
    case BreakpointReply(location) =>
      var o := Shown(s, msg.status, location, files);
      if o.ok then Outcome(o.state.(breakpointFound := true), true) else o
    case OtherReply => Outcome(s, true)
  }

  /** `processMessage`: an `end` reply clears the editor and ends the
      session; any other reply is handled and, unless it threw, stops. */
  function Processed(s: RuntimeState, msg: Message, files: map<string, string>): Outcome
    requires ReplyDefined(s, msg)
  {
    if msg.response.EndReply? then
      Outcome(s.(editor := s.editor + [ClearEditor], events := s.events + [End]), true)
    else
      var h := Handled(s, msg, files);
      if h.ok then Outcome(Stopped(h.state), true) else h
  }

  /** Every reply other than `end`, `revert` and `break` that does not throw
      ends in exactly one stop event, chosen by `StopEvent` from the queue and
      the flags, and sends at most the head of the queue. The breakpoint flag
      survives unless the stop reports it; the exception flag never changes. */
  lemma ReplyStopsOnce(s: RuntimeState, msg: Message, files: map<string, string>)
    requires ReplyDefined(s, msg)
    requires !msg.response.EndReply? && !msg.response.RevertReply? && !msg.response.BreakReply?
    ensures var r := Processed(s, msg, files);
      var hit := s.breakpointFound || msg.response.BreakpointReply?;
      r.ok ==>
        && r.state.events == s.events + [StopEvent(s.tasks == [], s.exceptionFound, hit)]
        && r.state.sent == s.sent + (if s.tasks == [] then [] else [s.tasks[0]])
        && r.state.tasks == (if s.tasks == [] then [] else s.tasks[1..])
        && r.state.breakpointFound == (hit && !(s.tasks == [] && !s.exceptionFound))
        && r.state.exceptionFound == s.exceptionFound
        && r.state.breakPoints == s.breakPoints
  {
    var h := Handled(s, msg, files);
    if h.ok {
      HandledFlags(s, msg, files);
      HandledQueue(s, msg, files);
      StoppedFacts(h.state);
    }
  }

  /** The branches never touch the flags, except that a `breakpoint` reply
      that reads its file sets the breakpoint flag and a `revert` that reads
      its file sets the exception flag. */
  lemma HandledFlags(s: RuntimeState, msg: Message, files: map<string, string>)
    requires ReplyDefined(s, msg)
    ensures var h := Handled(s, msg, files);
      && h.state.breakpointFound == (s.breakpointFound || (msg.response.BreakpointReply? && h.ok))
      && h.state.exceptionFound == (s.exceptionFound || (msg.response.RevertReply? && h.ok))
  {
    match msg.response
    case InfoLocalsReply(_) =>
    case BacktraceReply(_) =>
    case BreakReply(_) =>
    case RevertReply(_) =>
    case EndReply =>
    case StepReply(location) =>
      ShownKeeps(s, msg.status, location, files);
    case BreakpointReply(location) =>
      ShownKeeps(s, msg.status, location, files);
    case OtherReply =>
  }

  /** Only `revert` and `break` touch the queue, the logs or the registry. */
  lemma HandledQueue(s: RuntimeState, msg: Message, files: map<string, string>)
    requires ReplyDefined(s, msg)
    requires !msg.response.RevertReply? && !msg.response.BreakReply?
    ensures var h := Handled(s, msg, files);
      && h.state.tasks == s.tasks && h.state.sent == s.sent && h.state.events == s.events
      && h.state.breakPoints == s.breakPoints
  {
    match msg.response
    case InfoLocalsReply(_) =>
    case BacktraceReply(_) =>
    case EndReply =>
    case StepReply(location) =>
      ShownKeeps(s, msg.status, location, files);
    case BreakpointReply(location) =>
      ShownKeeps(s, msg.status, location, files);
    case OtherReply =>
  }

  /** Showing a location touches neither the queue, the logs, the flags nor
      the registry. */
  lemma ShownKeeps(s: RuntimeState, status: string, location: Option<Code>, files: map<string, string>)
    ensures var o := Shown(s, status, location, files).state;
      && o.tasks == s.tasks && o.sent == s.sent && o.events == s.events && o.breakPoints == s.breakPoints
      && o.breakpointFound == s.breakpointFound && o.exceptionFound == s.exceptionFound
  {
  }

  /** What the tail does to the queue, the logs and the flags. */
  lemma StoppedFacts(h: RuntimeState)
    ensures var r := Stopped(h);
      && r.events == h.events + [StopEvent(h.tasks == [], h.exceptionFound, h.breakpointFound)]
      && r.sent == h.sent + (if h.tasks == [] then [] else [h.tasks[0]])
      && r.tasks == (if h.tasks == [] then [] else h.tasks[1..])
      && r.breakpointFound == (h.breakpointFound && !(h.tasks == [] && !h.exceptionFound))
      && r.exceptionFound == h.exceptionFound
      && r.breakPoints == h.breakPoints
  {
  }

  /** A reply that throws changes nothing but the recorded source path, which
      then names a file that cannot be read: no event, no command. */
  lemma FailedReadOnlyMovesSource(s: RuntimeState, msg: Message, files: map<string, string>)
    requires ReplyDefined(s, msg)
    ensures var r := Processed(s, msg, files);
      !r.ok ==>
        && r.state == s.(contractSource := r.state.contractSource)
        && r.state.contractSource.Some?
        && r.state.contractSource != s.contractSource
        && r.state.contractSource.value !in files
  {
    if !msg.response.EndReply? {
      HandledFailure(s, msg, files);
    }
  }

  /** A branch that throws has only loaded a path it could not read. */
  lemma HandledFailure(s: RuntimeState, msg: Message, files: map<string, string>)
    requires ReplyDefined(s, msg)
    ensures var h := Handled(s, msg, files);
      !h.ok ==>
        && h.state == s.(contractSource := h.state.contractSource)
        && h.state.contractSource.Some?
        && h.state.contractSource != s.contractSource
        && h.state.contractSource.value !in files
  {
    var h := Handled(s, msg, files);
    match msg.response
    case InfoLocalsReply(_) =>
      assert h.ok;
    case BacktraceReply(_) =>
      assert h.ok;
    case BreakReply(name) =>
      if msg.status == "ok" && name in s.breakPoints {
        assert !h.ok ==> h == Loaded(s, name, files);
        LoadFailure(s, name, files);
      } else {
        assert h.ok;
      }
    case RevertReply(code) =>
      assert !h.ok ==> h == Loaded(s, code.path, files);
      LoadFailure(s, code.path, files);
    case EndReply =>
      assert h.ok;
    case StepReply(location) =>
      if msg.status == "ok" && location.Some? {
        assert !h.ok ==> h == Loaded(s, location.value.path, files);
        LoadFailure(s, location.value.path, files);
      } else {
        assert h.ok;
      }
    case BreakpointReply(location) =>
      if msg.status == "ok" && location.Some? {
        assert !h.ok ==> h == Loaded(s, location.value.path, files);
        LoadFailure(s, location.value.path, files);
      } else {
        assert h.ok;
      }
    case OtherReply =>
      assert h.ok;
  }

  /** A load that throws records a new path naming no readable file and
      changes nothing else. */
  lemma LoadFailure(s: RuntimeState, path: string, files: map<string, string>)
    ensures var l := Loaded(s, path, files);
      !l.ok ==>
        && l.state == s.(contractSource := Some(path))
        && Some(path) != s.contractSource
        && path !in files
  {
  }

  /** A `revert` records the exception and its text, moves to its location,
      drops pending work, sends `info_locals` and `backtrace` and stops as a
      step; it throws exactly when the file cannot be read. */
  lemma RevertHandsOver(s: RuntimeState, status: string, code: Code, files: map<string, string>)
    ensures var r := Processed(s, Message(status, RevertReply(code)), files);
      && r.ok == Loads(s.contractSource, code.path, files)
      && (r.ok ==>
            && r.state.exceptionFound && r.state.exceptionMessage == Some(code.text)
            && r.state.contractSource == Some(code.path) && r.state.currentLine == code.lineIndex
            && r.state.tasks == [] && r.state.sent == s.sent + [InfoLocals, Backtrace]
            && r.state.events == s.events + [StopOnStep])
  {
  }

  /** The exception flag, once set, is never cleared, and only a `revert`
      sets it. */
  lemma ExceptionIsSticky(s: RuntimeState, msg: Message, files: map<string, string>)
    requires ReplyDefined(s, msg)
    ensures var r := Processed(s, msg, files);
      && (s.exceptionFound ==> r.state.exceptionFound)
      && (!s.exceptionFound && r.state.exceptionFound ==> msg.response.RevertReply? && r.ok)
  {
    if !msg.response.EndReply? {
      var h := Handled(s, msg, files);
      HandledFlags(s, msg, files);
      if h.ok {
        StoppedFacts(h.state);
      }
    }
  }

  /** After a `revert` the queue is empty, so the next reply that stops
      (the `info_locals` answer, say) reports the exception and sends nothing. */
  lemma {:induction false} RevertThenStopOnException(s: RuntimeState, status: string, code: Code,
                                                      msg: Message, files: map<string, string>)
    requires Processed(s, Message(status, RevertReply(code)), files).ok
    requires var t := Processed(s, Message(status, RevertReply(code)), files).state;
      && ReplyDefined(t, msg) && Processed(t, msg, files).ok
    requires !msg.response.EndReply? && !msg.response.RevertReply? && !msg.response.BreakReply?
    ensures var t := Processed(s, Message(status, RevertReply(code)), files).state;
      var r := Processed(t, msg, files).state;
      && r.events == t.events + [StopOnException]
      && r.sent == t.sent && r.tasks == []
  {
    RevertHandsOver(s, status, code, files);
    var t := Processed(s, Message(status, RevertReply(code)), files).state;
    ReplyStopsOnce(t, msg, files);
  }

  /** A successful `break` reply verifies the bucket of the named key and
      emits one validation per flipped entry before the stop. With the bound
      the source uses, an entry on a line of 0 or more is never validated. */
  lemma {:induction false} BreakReplyValidates(s: RuntimeState, name: string, files: map<string, string>)
    requires name in s.breakPoints && Loads(s.contractSource, name, files)
    ensures var r := Processed(s, Message("ok", BreakReply(name)), files);
      && r.ok
      && r.state.breakPoints == s.breakPoints[name := VerifyBucket(s.breakPoints[name], ContractLinesArity)]
      && r.state.events == s.events + ValidationEvents(Validated(s.breakPoints[name], ContractLinesArity))
                           + [StopEvent(s.tasks == [], s.exceptionFound, s.breakpointFound)]
    ensures (forall i :: 0 <= i < |s.breakPoints[name]| ==> s.breakPoints[name][i].line >= 0) ==>
      var r := Processed(s, Message("ok", BreakReply(name)), files);
      && r.state.breakPoints == s.breakPoints
      && r.state.events == s.events + [StopEvent(s.tasks == [], s.exceptionFound, s.breakpointFound)]
  {
    var bucket := s.breakPoints[name];
    var h := Handled(s, Message("ok", BreakReply(name)), files);
    assert h.ok && h.state.tasks == s.tasks && h.state.exceptionFound == s.exceptionFound
        && h.state.breakpointFound == s.breakpointFound
        && h.state.breakPoints == s.breakPoints[name := VerifyBucket(bucket, ContractLinesArity)]
        && h.state.events == s.events + ValidationEvents(Validated(bucket, ContractLinesArity)) by {
      assert h == BreakpointsVerified(s, name, files, ContractLinesArity);
      assert Loaded(s, name, files).ok;
    }
    StoppedFacts(h.state);
    if forall i :: 0 <= i < |bucket| ==> bucket[i].line >= 0 {
      NothingVerifiedAtArity(bucket);
      assert s.breakPoints[name := bucket] == s.breakPoints;
    }
  }

  /** `end` clears the editor and ends the session; nothing is sent and the
      queue is kept. */
  lemma EndIsSilent(s: RuntimeState, status: string, files: map<string, string>)
    ensures var r := Processed(s, Message(status, EndReply), files);
      && r.ok && r.state.events == s.events + [End] && r.state.editor == s.editor + [ClearEditor]
      && r.state.sent == s.sent && r.state.tasks == s.tasks
  {
  }

  class Runtime {
    var exceptionMessage: Option<string>
    const contractManager: ContractManager
    var breakPoints: map<string, seq<Breakpoint>>
    var breakpointId: int
    var configurationPath: string
    var pythonPath: string
    /** The launched backend; `None` before `start`. */
    var shell: Option<ShellOptions>
    var variables: seq<Variable>
    var variablesFrame: seq<seq<Variable>>
    var stack: seq<Frame>
    var exceptionFound: bool
    var breakpointFound: bool
    const taskQueue: TaskQueue
    /** Commands written to the backend, oldest first. */
    var sent: seq<Command>
    /** Events emitted to the session, oldest first. */
    var events: seq<Event>
    /** Calls on the editor helper, oldest first. */
    var editor: seq<EditorCall>

    function State(): RuntimeState
      reads this, taskQueue, contractManager
    {
      RuntimeState(exceptionMessage, contractManager.contractSource, contractManager.contractLines,
                   contractManager.currentLine, breakPoints, variables, variablesFrame, stack,
                   exceptionFound, breakpointFound, taskQueue.tasks, sent, events, editor)
    }

    constructor ()
      ensures fresh(taskQueue) && fresh(contractManager)
      ensures taskQueue.tasks == [Queue.Step]
      ensures contractManager.contractSource == None && contractManager.contractLines == []
      ensures contractManager.currentLine == 0
      ensures breakPoints == map[] && breakpointId == 1 && shell == None
      ensures variables == [] && variablesFrame == [] && stack == []
      ensures !exceptionFound && !breakpointFound && exceptionMessage == None
      ensures sent == [] && events == [] && editor == []
    {
      exceptionMessage := None;
      contractManager := new ContractManager();
      breakPoints := map[];
      breakpointId := 1;
      configurationPath, pythonPath := "", "";
      shell := None;
      variables, variablesFrame, stack := [], [], [];
      exceptionFound, breakpointFound := false, false;
      taskQueue := new TaskQueue();
      sent, events, editor := [], [], [];
    }

    /** The `sourceFile` getter asks the cache. */
    function SourceFile(): (r: Option<string>)
      reads this, contractManager
      ensures r == contractManager.contractSource
    {
      contractManager.GetSourceFile()
    }

    method SetSolitudeConfigurationPath(path: string)
      modifies this`configurationPath
      ensures configurationPath == path
    {
      configurationPath := path;
    }

    method SetPythonPath(path: string)
      modifies this`pythonPath
      ensures pythonPath == path
    {
      pythonPath := path;
    }

    /** The backend is launched for one transaction, the session is told it
        may configure, and a first step is requested. */
    method Start(txHash: string)
      modifies this`shell, this`events, this`sent, taskQueue
      ensures shell == Some(ShellOptions(pythonPath, PythonArgs(configurationPath, txHash)))
      ensures events == old(events) + [Initialized]
      ensures var q := old(taskQueue.tasks) + [Queue.Step, InfoLocals, Backtrace];
        sent == old(sent) + [q[0]] && taskQueue.tasks == q[1..]
    {
      shell := Some(ShellOptions(pythonPath, PythonArgs(configurationPath, txHash)));
      events := events + [Initialized];
      Step();
    }

    method Disconnect()
      modifies this`editor
      ensures editor == old(editor) + [ClearEditor]
    {
      editor := editor + [ClearEditor];
    }

    /** Sends the head of the queue, if any. */
    method ProcessTaskQueue()
      modifies taskQueue, this`sent
      ensures State() == Dispatched(old(State()))
      ensures old(taskQueue.tasks) != [] ==>
        sent == old(sent) + [old(taskQueue.tasks)[0]] && taskQueue.tasks == old(taskQueue.tasks)[1..]
      ensures old(taskQueue.tasks) == [] ==> sent == old(sent) && taskQueue.tasks == []
    {
      if !taskQueue.IsEmpty() {
        var command := taskQueue.ProcessTaskQueue();
        sent := sent + [command.value];
      }
    }

    method GetInfo()
      modifies taskQueue, this`sent
      ensures var q := old(taskQueue.tasks) + [InfoLocals, Backtrace];
        sent == old(sent) + [q[0]] && taskQueue.tasks == q[1..]
    {
      taskQueue.GetInfoCommand();
      ProcessTaskQueue();
    }

    method Continue()
      modifies taskQueue, this`sent
      ensures var q := old(taskQueue.tasks) + [Queue.Continue, InfoLocals, Backtrace];
        sent == old(sent) + [q[0]] && taskQueue.tasks == q[1..]
    {
      taskQueue.ContinueCommand();
      ProcessTaskQueue();
    }

    method Step()
      modifies taskQueue, this`sent
      ensures var q := old(taskQueue.tasks) + [Queue.Step, InfoLocals, Backtrace];
        sent == old(sent) + [q[0]] && taskQueue.tasks == q[1..]
    {
      taskQueue.StepCommand();
      ProcessTaskQueue();
    }

    /** `getVariables(variableId = 'local_0')`: the default id names the
        pending list; any list returned is the pending one or a stored one. */
    function GetVariables(variableId: string): (r: Option<seq<Variable>>)
      reads this
      ensures variableId == "local_0" ==> r == Some(variables)
      ensures r.Some? ==> r.value == variables || r.value in variablesFrame
      ensures FrameNumber(variableId).None? ==> r.None?
    {
      DefaultFrameNumber();
      VariablesFor(variableId, variables, variablesFrame)
    }

    function GetStack(): (r: seq<Frame>)
      reads this
      ensures r == stack
    {
      stack
    }

    /** A new unverified breakpoint with the next id is stored (see
        `Registry.AddBreakpoint`) and its `break` command jumps the queue:
        it is sent at once and the queue is as before. */
    method SetBreakPoint(path: string, line: int) returns (bp: Breakpoint)
      modifies this`breakpointId, this`breakPoints, this`sent, taskQueue
      ensures bp == Breakpoint(path, old(breakpointId), line, false)
      ensures breakpointId == old(breakpointId) + 1
      ensures breakPoints == AddBreakpoint(old(breakPoints), path, bp)
      ensures sent == old(sent) + [Break(Locator(path, line))]
      ensures taskQueue.tasks == old(taskQueue.tasks)
    {
      bp := Breakpoint(path, breakpointId, line, false);
      breakpointId := breakpointId + 1;
      if path in breakPoints {
        breakPoints := breakPoints[path := breakPoints[path] + [bp]];
      } else {
        breakPoints := breakPoints[Basename(path) := [bp]];
      }
      taskQueue.SetBreakpointCommand(path, line);
      ProcessTaskQueue();
    }

    method SetFunctionBreakPoint(name: string)
      modifies this`sent, taskQueue
      ensures sent == old(sent) + [Break(name)]
      ensures taskQueue.tasks == old(taskQueue.tasks)
    {
      taskQueue.SetFunctionBreakpointCommand(name);
      ProcessTaskQueue();
    }

    /** The oldest breakpoint stored under `path` goes, whatever its line,
        and a `delete` for its line jumps the queue. An empty bucket makes
        the source crash on `bp.line`. */
    method ClearBreakPoint(path: string) returns (bp: Option<Breakpoint>)
      requires path in breakPoints ==> |breakPoints[path]| > 0
      modifies this`breakPoints, this`sent, taskQueue
      ensures (breakPoints, bp) == ClearFirst(old(breakPoints), path)
      ensures bp.None? ==> sent == old(sent)
      ensures bp.Some? ==> sent == old(sent) + [Delete(Locator(path, bp.value.line))]
      ensures taskQueue.tasks == old(taskQueue.tasks)
    {
      if path in breakPoints {
        var first := breakPoints[path][0];
        taskQueue.ClearBreakpointCommand(Locator(path, first.line));
        breakPoints := breakPoints[path := breakPoints[path][1..]];
        ProcessTaskQueue();
        return Some(first);
      }
      return None;
    }

    method ClearBreakpoints(path: string)
      modifies this`breakPoints
      ensures breakPoints == old(breakPoints) - {path}
    {
      breakPoints := breakPoints - {path};
    }

    function GetLastException(): (r: Option<string>)
      reads this
      ensures r == exceptionMessage
    {
      exceptionMessage
    }

    /** `verifyBreakpoints(path)`; the source compares with
        `Registry.ContractLinesArity`. */
    method VerifyBreakpoints(path: string, files: map<string, string>, bound: int) returns (ok: bool)
      modifies this`breakPoints, this`events, contractManager`contractSource, contractManager`contractLines
      ensures Outcome(State(), ok) == BreakpointsVerified(old(State()), path, files, bound)
    {
      ok := true;
      if path in breakPoints {
        ok := contractManager.SetOrUpdateContractSource(path, files);
        if !ok {
          return;
        }
        var updated, validated := VerifyEntries(breakPoints[path], bound);
        breakPoints := breakPoints[path := updated];
        events := events + ValidationEvents(validated);
      }
    }

    /** A call was entered: see `Frames.Grown`. */
    method GrowStack(frames: seq<BackendFrame>, file: Option<string>, line: int)
      requires GrowDefined(stack, frames, breakpointFound || exceptionFound)
      modifies this`stack, this`variablesFrame
      ensures Snapshot(stack, variablesFrame) ==
        Grown(Snapshot(old(stack), old(variablesFrame)), variables, frames, file, line,
              breakpointFound || exceptionFound)
    {
      var interrupted := breakpointFound || exceptionFound;
      var outer := Relabel(stack);
      if |outer| > 1 {
        outer := outer[|outer| - 1 := outer[|outer| - 1].(file := file, line := line)];
      }
      assert outer == ResolveOutermost(Relabelled(old(stack)), file, line);
      var frameList, snapshots := outer, variablesFrame;
      if interrupted {
        var kept := outer[..if |outer| < 2 then |outer| else 2];
        kept := kept[|kept| - 1 := kept[|kept| - 1].(index := |frames| - 1)];
        assert kept == Truncated(outer, |frames|);
        frameList, snapshots := Backfill(frames, file, line, kept, variables, variablesFrame);
      }
      var frame := FindByIndex(frames, 0).value;
      stack := [Frame(0, Label(frame.description), file, line, false)] + frameList;
      variablesFrame := [variables] + snapshots;
    }

    /** The `backtrace` branch: see `Frames.AfterBacktrace`. */
    method UpdateStack(frames: seq<BackendFrame>)
      requires BacktraceDefined(stack, frames, breakpointFound || exceptionFound)
      modifies this`stack, this`variablesFrame
      ensures Snapshot(stack, variablesFrame) ==
        AfterBacktrace(Snapshot(old(stack), old(variablesFrame)), variables, frames,
                       contractManager.contractSource, contractManager.currentLine,
                       breakpointFound || exceptionFound)
    {
      var file := contractManager.GetSourceFile();
      var line := contractManager.GetCurrentLine();
      if |frames| > |stack| {
        GrowStack(frames, file, line);
      } else if |frames| < |stack| {
        stack := stack[1..];
        if |variablesFrame| > 0 {
          variablesFrame := variablesFrame[1..];
        }
      }
      stack := stack[0 := stack[0].(line := line, file := file)];
    }

    /** The location part of a `step` or `breakpoint` reply. */
    method ShowLocation(status: string, location: Option<Code>, files: map<string, string>) returns (ok: bool)
      modifies this`editor, contractManager
      ensures Outcome(State(), ok) == Shown(old(State()), status, location, files)
    {
      ok := true;
      if status == "ok" && location.Some? {
        var code := location.value;
        ok := contractManager.SetOrUpdateContractSource(code.path, files);
        if !ok {
          return;
        }
        contractManager.SetContractLine(code.lineIndex);
        editor := editor + [UpdateRange(code.linePos, code.linePos + code.lineLength),
                            RenderCodeInfo(contractManager.GetCurrentLine())];
      }
    }

    /** The `revert` branch. */
    method Revert(code: Code, files: map<string, string>) returns (ok: bool)
      modifies this`editor, this`exceptionMessage, this`exceptionFound, this`sent, taskQueue, contractManager
      ensures Outcome(State(), ok) == Reverted(old(State()), code, files)
    {
      ok := contractManager.SetOrUpdateContractSource(code.path, files);
      if !ok {
        return;
      }
      contractManager.SetContractLine(code.lineIndex);
      editor := editor + [UpdateRange(code.linePos, code.linePos + code.lineLength)];
      exceptionMessage := Some(code.text);
      exceptionFound := true;
      taskQueue.Empty();
      GetInfo();
    }

    /** The tail of `processMessage`. */
    method Stop()
      modifies this`events, this`breakpointFound, this`sent, taskQueue
      ensures State() == Stopped(old(State()))
    {
      if taskQueue.IsEmpty() {
        if exceptionFound {
          events := events + [StopOnException];
          ProcessTaskQueue();
          return;
        }
        if breakpointFound {
          events := events + [StopOnBreakpoint];
          breakpointFound := false;
          return;
        }
      }
      events := events + [StopOnStep];
      ProcessTaskQueue();
    }

    /** The branch for the reply's type. */
    method Handle(msg: Message, files: map<string, string>) returns (ok: bool)
      requires ReplyDefined(State(), msg)
      modifies this`variables, this`variablesFrame, this`stack, this`exceptionFound,
               this`exceptionMessage, this`breakpointFound, this`breakPoints, this`sent,
               this`events, this`editor, taskQueue, contractManager
      ensures Outcome(State(), ok) == Handled(old(State()), msg, files)
    {
      ok := true;
      match msg.response {
        case InfoLocalsReply(locals) =>
          variables := ReadLocals(locals);
        case BacktraceReply(frames) =>
          UpdateStack(frames);
        case BreakReply(name) =>
          if msg.status == "ok" {
            ok := VerifyBreakpoints(name, files, ContractLinesArity);
          }
        case RevertReply(code) =>
          ok := Revert(code, files);
        case EndReply =>
        case StepReply(location) =>
          ok := ShowLocation(msg.status, location, files);
        case BreakpointReply(location) =>
          ok := ShowLocation(msg.status, location, files);
          if ok {
            breakpointFound := true;
          }
        case OtherReply =>
      }
    }

    /** One reply of the backend; `ok` is false when a file read threw. */
    method ProcessMessage(msg: Message, files: map<string, string>) returns (ok: bool)
      requires ReplyDefined(State(), msg)
      modifies this`variables, this`variablesFrame, this`stack, this`exceptionFound,
               this`exceptionMessage, this`breakpointFound, this`breakPoints, this`sent,
               this`events, this`editor, taskQueue, contractManager
      ensures Outcome(State(), ok) == Processed(old(State()), msg, files)
    {
      if msg.response.EndReply? {
        editor := editor + [ClearEditor];
        events := events + [End];
        return true;
      }
      ok := Handle(msg, files);
      if ok {
        Stop();
      }
    }
  }
}
