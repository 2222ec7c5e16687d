/** The earlier runtime of src/runtime.ts: its own array of commands instead
    of a task queue, breakpoints keyed by the full path and checked against
    the text of the source, a stack rebuilt from every backtrace, and a step
    event for every located reply. The backend channel is the log `sent`,
    the events the log `events`; reading a file is the map `files`. */
module Legacy {
  import opened Wrappers
  import opened Text
  import opened Queue
  import opened Contracts
  import opened Frames
  import opened Protocol

  datatype LegacyBreakpoint = LegacyBreakpoint(id: int, line: int, verified: bool)

  datatype LegacyEvent = StopOnStep | BreakpointValidated(breakpoint: LegacyBreakpoint)

  datatype LegacyFrame = LegacyFrame(index: int, name: string, file: Option<string>, line: int)

  /** The steps `step` appends, the trailing step included. */
  const StepTasks: seq<Command> := [Queue.Step, InfoLocals, Backtrace, Queue.Step]

  /** What verifying one entry needs in order not to crash: an index it
      reads is not negative. */
  predicate EntryDefined(bp: LegacyBreakpoint, lines: seq<string>)
  {
    bp.verified || bp.line >= |lines| || bp.line >= 0
  }

  /** The line an entry on `text` moves to: down past a blank or an added
      (`+`) line, up past a removed (`-`) line. */
  function AdjustedLine(line: int, text: string): int
  {
    if |text| == 0 || text[0] == '+' then line + 1
    else if text[0] == '-' then line - 1
    else line
  }

  /** One entry of the `verifyBreakpoints` loop, and whether it was
      validated. An entry on a line mentioning `lazy` moves but stays
      unverified. */
  function VerifiedEntry(bp: LegacyBreakpoint, lines: seq<string>): (LegacyBreakpoint, bool)
    requires EntryDefined(bp, lines)
  {
    if bp.verified || bp.line >= |lines| then (bp, false)
    else
      var text := Trim(lines[bp.line]);
      var moved := bp.(line := AdjustedLine(bp.line, text));
      if Contains(text, "lazy") then (moved, false) else (moved.(verified := true), true)
  }

  /** Verification keeps the id, never un-verifies, leaves verified and
      out-of-range entries alone, moves an entry by at most one line, and
      validates exactly the entries it marks verified. */
  lemma VerifiedEntryBounds(bp: LegacyBreakpoint, lines: seq<string>)
    requires EntryDefined(bp, lines)
    ensures var (r, validated) := VerifiedEntry(bp, lines);
      && r.id == bp.id
      && (bp.verified ==> r.verified)
      && (bp.verified || bp.line >= |lines| ==> r == bp && !validated)
      && -1 <= r.line - bp.line <= 1
      && (validated <==> !bp.verified && r.verified)
  {
    if !bp.verified && bp.line < |lines| {
      var text := Trim(lines[bp.line]);
      assert -1 <= AdjustedLine(bp.line, text) - bp.line <= 1;
    }
  }

  /** A breakpoint on a blank line lands, verified, on the next line. */
  lemma {:induction false} BlankLineMovesDown(bp: LegacyBreakpoint, lines: seq<string>)
    requires !bp.verified && 0 <= bp.line < |lines|
    requires forall i :: 0 <= i < |lines[bp.line]| ==> IsSpace(lines[bp.line][i])
    ensures VerifiedEntry(bp, lines) == (bp.(line := bp.line + 1, verified := true), true)
  {
    AllSpaceTrims(lines[bp.line]);
  }

  lemma {:induction false} AllSpaceTrims(s: string)
    requires forall i :: 0 <= i < |s| ==> IsSpace(s[i])
    ensures Trim(s) == ""
    ensures !Contains("", "lazy")
    decreases |s|
  {
    if |s| > 0 {
      AllSpaceTrims(s[1..]);
    }
  }

  /** A breakpoint on a line whose text starts with neither `+` nor `-` and
      does not mention `lazy` is validated where it is. */
  lemma PlainLineStays(bp: LegacyBreakpoint, lines: seq<string>)
    requires !bp.verified && 0 <= bp.line < |lines|
    requires var text := Trim(lines[bp.line]);
      |text| > 0 && text[0] != '+' && text[0] != '-' && !Contains(text, "lazy")
    ensures VerifiedEntry(bp, lines) == (bp.(verified := true), true)
  {
  }

  predicate BucketDefined(bps: seq<LegacyBreakpoint>, lines: seq<string>)
  {
    forall i :: 0 <= i < |bps| ==> EntryDefined(bps[i], lines)
  }

  function VerifiedBucket(bps: seq<LegacyBreakpoint>, lines: seq<string>): (r: seq<LegacyBreakpoint>)
    requires BucketDefined(bps, lines)
    ensures |r| == |bps|
    ensures forall i :: 0 <= i < |bps| ==> r[i] == VerifiedEntry(bps[i], lines).0
  {
    seq(|bps|, i requires 0 <= i < |bps| => VerifiedEntry(bps[i], lines).0)
  }

  /** The event one entry's verification emits, if any. */
  function Validation(bp: LegacyBreakpoint, lines: seq<string>): seq<LegacyEvent>
    requires EntryDefined(bp, lines)
  {
    var (r, validated) := VerifiedEntry(bp, lines);
    if validated then [BreakpointValidated(r)] else []
  }

  /** The validated entries, in bucket order, as they are after the update. */
  function Validations(bps: seq<LegacyBreakpoint>, lines: seq<string>): seq<LegacyEvent>
    requires BucketDefined(bps, lines)
    decreases |bps|
  {
    if |bps| == 0 then [] else Validation(bps[0], lines) + Validations(bps[1..], lines)
  }

  lemma {:induction false} ValidationsAppend(bps: seq<LegacyBreakpoint>, bp: LegacyBreakpoint, lines: seq<string>)
    requires BucketDefined(bps + [bp], lines)
    ensures BucketDefined(bps, lines) && EntryDefined(bp, lines)
    ensures Validations(bps + [bp], lines) == Validations(bps, lines) + Validation(bp, lines)
    decreases |bps|
  {
    assert forall i :: 0 <= i < |bps| ==> bps[i] == (bps + [bp])[i];
    assert (bps + [bp])[|bps|] == bp;
    if |bps| > 0 {
      assert (bps + [bp])[1..] == bps[1..] + [bp];
      ValidationsAppend(bps[1..], bp, lines);
    } else {
      assert bps + [bp] == [bp];
    }
  }

  /** The body of that `forEach` for one entry: the adjusted entry and
      whether it was validated. */
  method VerifyEntry(bp: LegacyBreakpoint, lines: seq<string>) returns (r: LegacyBreakpoint, validated: bool)
    requires EntryDefined(bp, lines)
    ensures (r, validated) == VerifiedEntry(bp, lines)
  {
    r, validated := bp, false;
    if !bp.verified && bp.line < |lines| {
      var text := Trim(lines[bp.line]);
      if |text| == 0 || text[0] == '+' {
        r := r.(line := r.line + 1);
      }
      if |text| > 0 && text[0] == '-' {
        r := r.(line := r.line - 1);
      }
      if !Contains(text, "lazy") {
        r := r.(verified := true);
        validated := true;
      }
    }
  }

  /** The `forEach` of `verifyBreakpoints` over one bucket. */
  method VerifyEntries(bps: seq<LegacyBreakpoint>, lines: seq<string>)
    returns (updated: seq<LegacyBreakpoint>, validations: seq<LegacyEvent>)
    requires BucketDefined(bps, lines)
    ensures updated == VerifiedBucket(bps, lines)
    ensures validations == Validations(bps, lines)
  {
    updated, validations := bps, [];
    var i := 0;
    while i < |bps|
      invariant 0 <= i <= |bps| && |updated| == |bps|
      invariant forall k :: 0 <= k < i ==> updated[k] == VerifiedEntry(bps[k], lines).0
      invariant forall k :: i <= k < |bps| ==> updated[k] == bps[k]
      invariant BucketDefined(bps[..i], lines) && validations == Validations(bps[..i], lines)
    {
      assert bps[..i + 1] == bps[..i] + [bps[i]];
      ValidationsAppend(bps[..i], bps[i], lines);
      var bp, validated := VerifyEntry(updated[i], lines);
      if validated {
        validations := validations + [BreakpointValidated(bp)];
      }
      updated := updated[i := bp];
      i := i + 1;
    }
    assert bps[..i] == bps;
  }

  /** The position of the first entry on `line` (`findIndex`), `|bps|` when
      there is none. */
  function IndexOfLine(bps: seq<LegacyBreakpoint>, line: int): (i: nat)
    ensures i <= |bps|
    ensures forall k :: 0 <= k < i ==> bps[k].line != line
    ensures i < |bps| ==> bps[i].line == line
  {
    if |bps| == 0 then 0
    else if bps[0].line == line then 0
    else 1 + IndexOfLine(bps[1..], line)
  }

  /** Removing the first entry on a line takes out exactly that entry and
      keeps the others in order. */
  lemma RemoveAtLine(bps: seq<LegacyBreakpoint>, line: int)
    requires IndexOfLine(bps, line) < |bps|
    ensures var i := IndexOfLine(bps, line);
      && multiset(bps[..i] + bps[i + 1..]) + multiset{bps[i]} == multiset(bps)
      && |bps[..i] + bps[i + 1..]| == |bps| - 1
  {
    var i := IndexOfLine(bps, line);
    assert bps == bps[..i] + [bps[i]] + bps[i + 1..];
  }

  /** The stack a backtrace builds: one frame per reported frame, every one
      at the current location. */
  function BacktraceStack(frames: seq<BackendFrame>, file: Option<string>, line: int): (r: seq<LegacyFrame>)
    ensures |r| == |frames|
    ensures forall i :: 0 <= i < |frames| ==>
      r[i].index == frames[i].index && r[i].file == file && r[i].line == line
  {
    seq(|frames|, i requires 0 <= i < |frames| =>
      LegacyFrame(frames[i].index, Label(frames[i].description), file, line))
  }

  /** The location of a reply that is neither `info_locals` nor `backtrace`;
      `None` when the reply has no `code` at all. */
  function Located(r: Response): Option<Option<Code>>
  {
    match r
    case StepReply(location) => Some(location)
    case BreakpointReply(location) => Some(location)
    case RevertReply(code) => Some(Some(code))
    case _ => None
  }

  /** What a reply needs in order not to crash: a successful reply of any
      other type carries `code`. */
  predicate ReplyDefined(msg: Message)
  {
    msg.status == "ok" && !msg.response.InfoLocalsReply? && !msg.response.BacktraceReply? ==>
      Located(msg.response).Some?
  }

  class LegacyRuntime {
    var sourceFile: Option<string>
    var sourceLines: seq<string>
    var currentLine: int
    var breakPoints: map<string, seq<LegacyBreakpoint>>
    var breakpointId: int
    var configurationPath: string
    var pythonPath: string
    var shell: Option<seq<string>>
    var variables: seq<Variable>
    var stack: seq<LegacyFrame>
    var taskQueue: seq<Command>
    /** Commands written to the backend, oldest first. */
    var sent: seq<Command>
    /** Events emitted to the session, oldest first. */
    var events: seq<LegacyEvent>

    constructor ()
      ensures sourceFile == None && sourceLines == [] && currentLine == 0
      ensures breakPoints == map[] && breakpointId == 1 && shell == None
      ensures variables == [] && stack == [] && taskQueue == []
      ensures sent == [] && events == []
    {
      sourceFile, sourceLines, currentLine := None, [], 0;
      breakPoints, breakpointId := map[], 1;
      configurationPath, pythonPath, shell := "", "", None;
      variables, stack, taskQueue := [], [], [];
      sent, events := [], [];
    }

    method SetSolitudeConfigurationPath(path: string)
      modifies this`configurationPath
      ensures configurationPath == path
    {
      configurationPath := path;
    }

    method SetPythonPath(path: string)
      modifies this`pythonPath
      ensures pythonPath == path
    {
      pythonPath := path;
    }

    /** Sends the head of the command array, if any. */
    method ProcessTaskQueue()
      modifies this`taskQueue, this`sent
      ensures old(taskQueue) != [] ==> sent == old(sent) + [old(taskQueue)[0]] && taskQueue == old(taskQueue)[1..]
      ensures old(taskQueue) == [] ==> sent == old(sent) && taskQueue == []
    {
      if |taskQueue| > 0 {
        sent := sent + [taskQueue[0]];
        taskQueue := taskQueue[1..];
      }
    }

    /** Four commands are appended, the trailing `step` included, and the
        head is sent: the array grows by three. */
    method Step()
      modifies this`taskQueue, this`sent
      ensures var q := old(taskQueue) + StepTasks;
        sent == old(sent) + [q[0]] && taskQueue == q[1..]
      ensures |taskQueue| == |old(taskQueue)| + 3
    {
      taskQueue := taskQueue + [Queue.Step];
      taskQueue := taskQueue + [InfoLocals];
      taskQueue := taskQueue + [Backtrace];
      taskQueue := taskQueue + [Queue.Step];
      assert taskQueue == old(taskQueue) + StepTasks;
      ProcessTaskQueue();
    }

    /** Continuing is stepping. */
    method Continue()
      modifies this`taskQueue, this`sent
      ensures var q := old(taskQueue) + StepTasks;
        sent == old(sent) + [q[0]] && taskQueue == q[1..]
    {
      Step();
    }

    method Start(txHash: string)
      modifies this`shell, this`taskQueue, this`sent
      ensures shell == Some(["--config", configurationPath + "/solitude.yaml", "debug", "--json", txHash])
      ensures var q := old(taskQueue) + StepTasks;
        sent == old(sent) + [q[0]] && taskQueue == q[1..]
    {
      shell := Some(["--config", configurationPath + "/solitude.yaml", "debug", "--json", txHash]);
      Step();
    }

    function Variables(): (r: seq<Variable>)
      reads this
      ensures r == variables
    {
      variables
    }

    /** `stack(startFrame, endFrame)` ignores its range. */
    function Stack(startFrame: int, endFrame: int): (r: (seq<LegacyFrame>, nat))
      reads this
      ensures r.0 == stack && r.1 == |r.0|
    {
      (stack, |stack|)
    }

    /** `loadSource`: reads only when the file changes; the name is recorded
        before the read, so a failed read keeps the old lines. */
    method LoadSource(file: string, files: map<string, string>) returns (ok: bool)
      modifies this`sourceFile, this`sourceLines
      ensures sourceFile == Some(file)
      ensures ok == Loads(old(sourceFile), file, files)
      ensures sourceLines == LoadedLines(old(sourceFile), old(sourceLines), file, files)
    {
      ok := true;
      if sourceFile != Some(file) {
        sourceFile := Some(file);
        if file in files {
          sourceLines := Lines(files[file]);
        } else {
          ok := false;
        }
      }
    }

    /** `verifyBreakpoints(path)`: load the file, then verify the bucket
        against its lines. */
    method VerifyBreakpoints(path: string, files: map<string, string>) returns (ok: bool)
      requires path in breakPoints ==>
        BucketDefined(breakPoints[path], LoadedLines(sourceFile, sourceLines, path, files))
      modifies this`sourceFile, this`sourceLines, this`breakPoints, this`events
      ensures path !in old(breakPoints) ==>
        ok && sourceFile == old(sourceFile) && sourceLines == old(sourceLines) &&
        breakPoints == old(breakPoints) && events == old(events)
      ensures path in old(breakPoints) ==>
        && sourceFile == Some(path)
        && sourceLines == LoadedLines(old(sourceFile), old(sourceLines), path, files)
        && ok == Loads(old(sourceFile), path, files)
        && (ok ==>
              && breakPoints == old(breakPoints)[path := VerifiedBucket(old(breakPoints)[path], sourceLines)]
              && events == old(events) + Validations(old(breakPoints)[path], sourceLines))
        && (!ok ==> breakPoints == old(breakPoints) && events == old(events))
    {
      ok := true;
      if path in breakPoints {
        ok := LoadSource(path, files);
        if !ok {
          return;
        }
        var updated, validations := VerifyEntries(breakPoints[path], sourceLines);
        breakPoints := breakPoints[path := updated];
        events := events + validations;
      }
    }

    /** A new entry with the next id goes at the end of the bucket for the
        full path and the bucket is verified; the result is that entry as
        verification left it. */
    method SetBreakPoint(path: string, line: int, files: map<string, string>) returns (bp: LegacyBreakpoint, ok: bool)
      requires BucketDefined((if path in breakPoints then breakPoints[path] else []) + [LegacyBreakpoint(breakpointId, line, false)],
                             LoadedLines(sourceFile, sourceLines, path, files))
      modifies this`breakpointId, this`sourceFile, this`sourceLines, this`breakPoints, this`events
      ensures breakpointId == old(breakpointId) + 1
      ensures EntryDefined(LegacyBreakpoint(old(breakpointId), line, false), sourceLines)
      ensures var added := (if path in old(breakPoints) then old(breakPoints)[path] else [])
                           + [LegacyBreakpoint(old(breakpointId), line, false)];
        && ok == Loads(old(sourceFile), path, files)
        && sourceLines == LoadedLines(old(sourceFile), old(sourceLines), path, files)
        && (ok ==>
              && breakPoints == old(breakPoints)[path := VerifiedBucket(added, sourceLines)]
              && bp == VerifiedEntry(LegacyBreakpoint(old(breakpointId), line, false), sourceLines).0
              && events == old(events) + Validations(added, sourceLines))
        && (!ok ==> breakPoints == old(breakPoints)[path := added] && events == old(events))
      ensures ok ==>
        && bp.id == old(breakpointId)
        && path in breakPoints && |breakPoints[path]| > 0 && bp == breakPoints[path][|breakPoints[path]| - 1]
    {
      var index;
      bp, index := AddEntry(path, line);
      ghost var added := breakPoints[path];
      assert added[index] == bp;
      ok := VerifyBreakpoints(path, files);
      if ok {
        ghost var verified := VerifiedBucket(added, sourceLines);
        assert breakPoints[path] == verified && |verified| == index + 1;
        assert verified[index] == VerifiedEntry(bp, sourceLines).0;
        VerifiedEntryBounds(bp, sourceLines);
        bp := breakPoints[path][index];
      }
    }

    /** The first half of `setBreakPoint`: the entry is created with the next
        id and put at the end of the bucket for the path. */
    method AddEntry(path: string, line: int) returns (bp: LegacyBreakpoint, index: nat)
      modifies this`breakpointId, this`breakPoints
      ensures bp == LegacyBreakpoint(old(breakpointId), line, false)
      ensures breakpointId == old(breakpointId) + 1
      ensures index == |if path in old(breakPoints) then old(breakPoints)[path] else []|
      ensures breakPoints == old(breakPoints)[path := (if path in old(breakPoints) then old(breakPoints)[path] else []) + [bp]]
    {
      bp := LegacyBreakpoint(breakpointId, line, false);
      breakpointId := breakpointId + 1;
      var bucket := if path in breakPoints then breakPoints[path] else [];
      index := |bucket|;
      breakPoints := breakPoints[path := bucket + [bp]];
    }

    /** The first entry on the line goes, if there is one. */
    method ClearBreakPoint(path: string, line: int) returns (bp: Option<LegacyBreakpoint>)
      modifies this`breakPoints
      ensures path !in old(breakPoints) || IndexOfLine(old(breakPoints)[path], line) == |old(breakPoints)[path]| ==>
        bp == None && breakPoints == old(breakPoints)
      ensures path in old(breakPoints) && IndexOfLine(old(breakPoints)[path], line) < |old(breakPoints)[path]| ==>
        var bucket := old(breakPoints)[path];
        var i := IndexOfLine(bucket, line);
        bp == Some(bucket[i]) && bucket[i].line == line &&
        breakPoints == old(breakPoints)[path := bucket[..i] + bucket[i + 1..]]
    {
      if path in breakPoints {
        var index := IndexOfLine(breakPoints[path], line);
        if index < |breakPoints[path]| {
          bp := Some(breakPoints[path][index]);
          breakPoints := breakPoints[path := breakPoints[path][..index] + breakPoints[path][index + 1..]];
          return;
        }
      }
      bp := None;
    }

    method ClearBreakpoints(path: string)
      modifies this`breakPoints
      ensures breakPoints == old(breakPoints) - {path}
    {
      breakPoints := breakPoints - {path};
    }

    /** One reply of the backend; `ok` is false when a file read threw.
        Every reply that does not throw sends the next command. */
    method ProcessMessage(msg: Message, files: map<string, string>) returns (ok: bool)
      requires ReplyDefined(msg)
      modifies this`variables, this`stack, this`sourceFile, this`sourceLines, this`currentLine,
               this`events, this`taskQueue, this`sent
      ensures msg.response.InfoLocalsReply? ==>
        ok && |variables| == |msg.response.variables| &&
        forall i :: 0 <= i < |variables| ==> variables[i] == LocalVariable(msg.response.variables[i])
      ensures !msg.response.InfoLocalsReply? ==> variables == old(variables)
      ensures msg.response.BacktraceReply? ==>
        ok && stack == BacktraceStack(msg.response.frames, old(sourceFile), old(currentLine))
      ensures !msg.response.BacktraceReply? ==> stack == old(stack)
      ensures var located := msg.status == "ok" && !msg.response.InfoLocalsReply? &&
                             !msg.response.BacktraceReply? && Located(msg.response).value.Some?;
        && (!located ==> ok && events == old(events) && sourceFile == old(sourceFile) &&
                         sourceLines == old(sourceLines) && currentLine == old(currentLine))
        && (located ==>
              var code := Located(msg.response).value.value;
              && sourceFile == Some(code.path)
              && sourceLines == LoadedLines(old(sourceFile), old(sourceLines), code.path, files)
              && ok == Loads(old(sourceFile), code.path, files)
              && (ok ==> currentLine == code.lineIndex && events == old(events) + [StopOnStep])
              && (!ok ==> currentLine == old(currentLine) && events == old(events)))
      ensures ok && old(taskQueue) != [] ==> sent == old(sent) + [old(taskQueue)[0]] && taskQueue == old(taskQueue)[1..]
      ensures ok && old(taskQueue) == [] ==> sent == old(sent) && taskQueue == []
      ensures !ok ==> sent == old(sent) && taskQueue == old(taskQueue)
    {
      ok := true;
      if msg.response.InfoLocalsReply? {
        variables := ReadLocals(msg.response.variables);
      } else if msg.response.BacktraceReply? {
        var frames := msg.response.frames;
        var built: seq<LegacyFrame> := [];
        var i := 0;
        while i < |frames|
          invariant 0 <= i <= |frames| && |built| == i
          invariant forall k :: 0 <= k < i ==>
            built[k] == LegacyFrame(frames[k].index, Label(frames[k].description), sourceFile, currentLine)
        {
          built := built + [LegacyFrame(frames[i].index, Label(frames[i].description), sourceFile, currentLine)];
          i := i + 1;
        }
        stack := built;
      } else if msg.status == "ok" {
        var location := Located(msg.response).value;
        if location.Some? {
          ok := LoadSource(location.value.path, files);
          if !ok {
            return;
          }
          currentLine := location.value.lineIndex;
          events := events + [StopOnStep];
        }
      }
      ProcessTaskQueue();
    }
  }
}
