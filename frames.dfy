/** The call stack and the per-frame variable snapshots that the adapter
    rebuilds from the backend's reports (the backtrace branch of
    src/runtime/runtime.ts and src/runtime/solitudeDebugSession.ts). The
    backend only says how many frames exist and describes each; entering and
    leaving a call is inferred from the change in that number. */
module Frames {
  import opened Wrappers
  import opened Text

  /** A record of the variables list: `{name, type, value, variablesReference}`. */
  datatype Variable = Variable(name: string, typ: string, value: string, variablesReference: int)

  /** `code` of a reported frame. */
  datatype CodeLocation = CodeLocation(unitname: string, lineIndex: int)

  /** A frame as the backend reports it: `{index, description, code}`. */
  datatype BackendFrame = BackendFrame(index: int, description: string, code: CodeLocation)

  /** A frame of the reconstructed stack. `invalidVariables` marks frames
      whose variables are a copy, not what the frame really held. The source
      keeps `index` and `line` sometimes as strings and sometimes as numbers;
      here both are numbers. */
  datatype Frame = Frame(index: int, name: string, file: Option<string>, line: int, invalidVariables: bool)

  /** The stack together with one variables list per frame. */
  datatype Snapshot = Snapshot(stack: seq<Frame>, variablesFrame: seq<seq<Variable>>)

  /** `${frame.description}(${1})` */
  function Label(description: string): string
  {
    description + "(1)"
  }

  predicate HasIndex(frames: seq<BackendFrame>, i: int)
  {
    exists k :: 0 <= k < |frames| && frames[k].index == i
  }

  /** `frames.find(element => element.index == i)`: the first frame with
      that index, `undefined` when there is none. */
  function FindByIndex(frames: seq<BackendFrame>, i: int): (r: Option<BackendFrame>)
    ensures r.Some? <==> HasIndex(frames, i)
    ensures r.Some? ==> r.value.index == i
    ensures r.Some? ==> exists k :: 0 <= k < |frames| && frames[k] == r.value &&
                          forall j :: 0 <= j < k ==> frames[j].index != i
    decreases |frames|
  {
    if |frames| == 0 then None
    else if frames[0].index == i then Some(frames[0])
    else
      var r := FindByIndex(frames[1..], i);
      assert HasIndex(frames, i) ==> HasIndex(frames[1..], i) by {
        if HasIndex(frames, i) {
          var k :| 0 <= k < |frames| && frames[k].index == i;
          assert frames[1..][k - 1].index == i;
        }
      }
      if r.Some? then
        assert HasIndex(frames, i) by {
          var k :| 0 <= k < |frames[1..]| && frames[1..][k] == r.value;
          assert frames[k + 1].index == i;
        }
        var k :| 0 <= k < |frames[1..]| && frames[1..][k] == r.value &&
                 forall j :: 0 <= j < k ==> frames[1..][j].index != i;
        assert frames[k + 1] == r.value;
        assert forall j :: 0 <= j < k + 1 ==> frames[j].index != i by {
          forall j | 0 <= j < k + 1 ensures frames[j].index != i {
            if j > 0 { assert frames[j] == frames[1..][j - 1]; }
          }
        }
        r
      else r
  }

  /** Every index from `lo` up to and including `hi` is reported. */
  predicate HasIndices(frames: seq<BackendFrame>, lo: int, hi: int)
  {
    forall i :: lo <= i <= hi ==> HasIndex(frames, i)
  }

  /** The frame `updateStackFrame` builds from a reported one. */
  function Reported(f: BackendFrame): Frame
  {
    Frame(f.index, Label(f.description), Some(f.code.unitname), f.code.lineIndex, true)
  }

  // ----- growth of the stack: a call was entered ---------------------------

  /** Every held frame moves one place outwards. */
  function Relabelled(stack: seq<Frame>): (r: seq<Frame>)
  {
    seq(|stack|, i requires 0 <= i < |stack| => stack[i].(index := i + 1))
  }

  /** With two or more frames the outermost one gets the current location. */
  function ResolveOutermost(stack: seq<Frame>, file: Option<string>, line: int): seq<Frame>
  {
    if |stack| > 1 then stack[|stack| - 1 := stack[|stack| - 1].(file := file, line := line)]
    else stack
  }

  /** `slice(0, 2)`, then the last kept frame is labelled `frames.length - 1`. */
  function Truncated(stack: seq<Frame>, count: int): seq<Frame>
    requires |stack| >= 1
  {
    var kept := stack[..if |stack| < 2 then |stack| else 2];
    kept[|kept| - 1 := kept[|kept| - 1].(index := count - 1)]
  }

  /** Number of frames the interrupt backfill invents. */
  function BackfillCount(count: int): nat
  {
    if count >= 2 then count - 2 else 0
  }

  /** The invented frames for backend indices 1 .. count-2, innermost first,
      all at the current location and marked as holding copied variables. */
  function Backfilled(frames: seq<BackendFrame>, file: Option<string>, line: int): seq<Frame>
    requires HasIndices(frames, 1, |frames| - 2)
  {
    seq(BackfillCount(|frames|), k requires 0 <= k < BackfillCount(|frames|) =>
      Frame(k + 1, Label(FindByIndex(frames, k + 1).value.description), file, line, true))
  }

  /** `n` copies of one variables list (`variables.slice()` each time). */
  function Copies(variables: seq<Variable>, n: nat): (r: seq<seq<Variable>>)
    ensures |r| == n
    ensures forall i :: 0 <= i < n ==> r[i] == variables
  {
    if n == 0 then [] else [variables] + Copies(variables, n - 1)
  }

  /** What the growth needs in order not to crash: a reported frame 0, and on
      an interrupt a held frame and every intermediate reported index. */
  predicate GrowDefined(stack: seq<Frame>, frames: seq<BackendFrame>, interrupted: bool)
  {
    HasIndex(frames, 0) &&
    (interrupted ==> |stack| >= 1 && HasIndices(frames, 1, |frames| - 2))
  }

  /** Every held frame moves one place outwards: the relabelling loop of
      `addNewStackFrameIfPossible`. */
  method Relabel(stack: seq<Frame>) returns (r: seq<Frame>)
    ensures r == Relabelled(stack)
  {
    r := stack;
    var index := 0;
    while index < |r|
      invariant 0 <= index <= |r| == |stack|
      invariant forall k :: 0 <= k < index ==> r[k] == stack[k].(index := k + 1)
      invariant forall k :: index <= k < |r| ==> r[k] == stack[k]
    {
      r := r[index := r[index].(index := index + 1)];
      index := index + 1;
    }
  }

  /** The backfill loop of the interrupt case, over the kept frames and the
      stored variables lists. */
  method Backfill(frames: seq<BackendFrame>, file: Option<string>, currentLine: int,
                 kept: seq<Frame>, copy: seq<Variable>, snapshots: seq<seq<Variable>>)
    returns (frameList: seq<Frame>, newSnapshots: seq<seq<Variable>>)
    requires HasIndices(frames, 1, |frames| - 2)
    ensures frameList == Backfilled(frames, file, currentLine) + kept
    ensures newSnapshots == Copies(copy, BackfillCount(|frames|)) + snapshots
  {
    ghost var filled := Backfilled(frames, file, currentLine);
    frameList, newSnapshots := kept, snapshots;
    if |frames| < 2 {
      assert filled == [];
      return;
    }
    var i := |frames| - 2;
    while i > 0
      invariant 0 <= i <= |frames| - 2
      invariant frameList == filled[i..] + kept
      invariant newSnapshots == Copies(copy, |frames| - 2 - i) + snapshots
    {
      var frame := FindByIndex(frames, i).value;
      var added := Frame(frame.index, Label(frame.description), file, currentLine, true);
      assert filled[i - 1] == added;
      assert filled[i - 1..] == [added] + filled[i..];
      frameList := [added] + frameList;
      assert [copy] + (Copies(copy, |frames| - 2 - i) + snapshots)
          == Copies(copy, |frames| - 2 - i + 1) + snapshots;
      newSnapshots := [copy] + newSnapshots;
      i := i - 1;
    }
    assert filled[0..] == filled;
  }

  /** `addNewStackFrameIfPossible`: the stack after a call was entered. */
  function Grown(s: Snapshot, variables: seq<Variable>, frames: seq<BackendFrame>,
                 file: Option<string>, line: int, interrupted: bool): Snapshot
    requires GrowDefined(s.stack, frames, interrupted)
  {
    var outer := ResolveOutermost(Relabelled(s.stack), file, line);
    var front := Frame(0, Label(FindByIndex(frames, 0).value.description), file, line, false);
    var held :=
      if interrupted then Backfilled(frames, file, line) + Truncated(outer, |frames|) else outer;
    var snapshots :=
      if interrupted then Copies(variables, BackfillCount(|frames|)) + s.variablesFrame else s.variablesFrame;
    Snapshot([front] + held, [variables] + snapshots)
  }

  /** Without an interrupt: exactly one new frame in front, labelled 0 and
      with live variables; every old frame i becomes frame i+1 with its name
      and flag, and only the outermost of two or more gets the current
      location. */
  lemma GrownQuiet(s: Snapshot, variables: seq<Variable>, frames: seq<BackendFrame>, file: Option<string>, line: int)
    requires GrowDefined(s.stack, frames, false)
    ensures var r := Grown(s, variables, frames, file, line, false);
      && |r.stack| == |s.stack| + 1
      && r.variablesFrame == [variables] + s.variablesFrame
      && r.stack[0].index == 0 && r.stack[0].file == file && r.stack[0].line == line
      && !r.stack[0].invalidVariables
      && (forall i :: 0 <= i < |s.stack| ==>
            r.stack[i + 1].index == i + 1 &&
            r.stack[i + 1].name == s.stack[i].name &&
            r.stack[i + 1].invalidVariables == s.stack[i].invalidVariables)
      && (forall i :: 0 <= i < |s.stack| && (i < |s.stack| - 1 || |s.stack| == 1) ==>
            r.stack[i + 1].file == s.stack[i].file && r.stack[i + 1].line == s.stack[i].line)
      && (|s.stack| > 1 ==> r.stack[|s.stack|].file == file && r.stack[|s.stack|].line == line)
  {
    var r := Grown(s, variables, frames, file, line, false);
    var outer := ResolveOutermost(Relabelled(s.stack), file, line);
    assert r.stack == [r.stack[0]] + outer;
    forall i | 0 <= i < |s.stack|
      ensures r.stack[i + 1] == outer[i]
      ensures outer[i].index == i + 1 && outer[i].name == s.stack[i].name
    {
    }
  }

  /** On an interrupt with a single held frame and `count` >= 2 reported
      frames the stack has exactly `count` frames labelled 0 .. count-1, the
      ones in between are invented and carry copies of the variables. */
  lemma GrownInterrupted(s: Snapshot, variables: seq<Variable>, frames: seq<BackendFrame>, file: Option<string>, line: int)
    requires GrowDefined(s.stack, frames, true)
    requires |s.stack| == 1 && |frames| >= 2
    ensures var r := Grown(s, variables, frames, file, line, true);
      && |r.stack| == |frames|
      && (forall i :: 0 <= i < |r.stack| ==> r.stack[i].index == i)
      && !r.stack[0].invalidVariables
      && (forall i :: 1 <= i <= |frames| - 2 ==>
            r.stack[i].invalidVariables && r.stack[i].file == file && r.stack[i].line == line)
      && r.stack[|frames| - 1].name == s.stack[0].name
      && |r.variablesFrame| == |s.variablesFrame| + |frames| - 1
      && (forall i :: 0 <= i < |frames| - 1 ==> r.variablesFrame[i] == variables)
      && r.variablesFrame[|frames| - 1..] == s.variablesFrame
  {
    var r := Grown(s, variables, frames, file, line, true);
    var n := |frames|;
    assert r.variablesFrame[n - 1..] == s.variablesFrame;
  }

  /** The source cuts the stack to two frames but not the variables lists: on
      an interrupt with more than two held frames the two stop having the
      same length. */
  lemma GrownInterruptedDeep(s: Snapshot, variables: seq<Variable>, frames: seq<BackendFrame>, file: Option<string>, line: int)
    requires GrowDefined(s.stack, frames, true)
    requires |s.stack| >= 2 && |frames| >= 2
    ensures var r := Grown(s, variables, frames, file, line, true);
      && |r.stack| == |frames| + 1
      && |r.variablesFrame| == |s.variablesFrame| + |frames| - 1
      && (|s.variablesFrame| == |s.stack| ==> (|r.stack| == |r.variablesFrame| <==> |s.stack| == 2))
  {
  }

  // ----- shrinking and the top frame ---------------------------------------

  /** `shift()` of both arrays: a call returned. Shifting an empty array
      changes nothing. */
  function Popped(s: Snapshot): Snapshot
  {
    Snapshot(if |s.stack| > 0 then s.stack[1..] else s.stack,
             if |s.variablesFrame| > 0 then s.variablesFrame[1..] else s.variablesFrame)
  }

  lemma PoppedKeepsLengthsEqual(s: Snapshot)
    requires |s.stack| == |s.variablesFrame|
    ensures |Popped(s).stack| == |Popped(s).variablesFrame|
    ensures |s.stack| > 0 ==> |Popped(s).stack| == |s.stack| - 1 && Popped(s).stack == s.stack[1..]
  {
  }

  /** Frame 0 moves to the current location; nothing else changes. */
  function WithTop(stack: seq<Frame>, file: Option<string>, line: int): (r: seq<Frame>)
    requires |stack| > 0
    ensures |r| == |stack| && r[1..] == stack[1..]
    ensures r[0] == stack[0].(file := file, line := line)
  {
    stack[0 := stack[0].(file := file, line := line)]
  }

  // ----- one backtrace reply ----------------------------------------------

  /** What a backtrace reply needs in order not to crash. */
  predicate BacktraceDefined(stack: seq<Frame>, frames: seq<BackendFrame>, interrupted: bool)
  {
    if |frames| > |stack| then GrowDefined(stack, frames, interrupted)
    else if |frames| < |stack| then |stack| >= 2
    else |stack| >= 1
  }

  /** The backtrace branch of `processMessage`: grow by one frame, or drop
      the innermost one, and then put frame 0 at the current location. */
  function AfterBacktrace(s: Snapshot, variables: seq<Variable>, frames: seq<BackendFrame>,
                          file: Option<string>, line: int, interrupted: bool): (r: Snapshot)
    requires BacktraceDefined(s.stack, frames, interrupted)
    ensures |r.stack| > 0 && r.stack[0].file == file && r.stack[0].line == line
  {
    var t :=
      if |frames| > |s.stack| then Grown(s, variables, frames, file, line, interrupted)
      else if |frames| < |s.stack| then Popped(s)
      else s;
    Snapshot(WithTop(t.stack, file, line), t.variablesFrame)
  }

  /** However many frames are added at once, a backtrace without interrupt
      adds exactly one; a smaller count drops exactly the innermost frame
      and its variables; an equal count keeps every frame but the top. */
  lemma BacktraceOneStep(s: Snapshot, variables: seq<Variable>, frames: seq<BackendFrame>,
                         file: Option<string>, line: int, interrupted: bool)
    requires BacktraceDefined(s.stack, frames, interrupted)
    ensures var r := AfterBacktrace(s, variables, frames, file, line, interrupted);
      && (|frames| > |s.stack| && !interrupted ==>
            |r.stack| == |s.stack| + 1 && r.variablesFrame == [variables] + s.variablesFrame)
      && (|frames| < |s.stack| ==>
            |r.stack| == |s.stack| - 1 && r.stack[1..] == s.stack[2..] &&
            r.variablesFrame == Popped(s).variablesFrame)
      && (|frames| == |s.stack| ==>
            r.stack[1..] == s.stack[1..] && r.variablesFrame == s.variablesFrame)
  {
    if |frames| > |s.stack| && !interrupted {
      GrownQuiet(s, variables, frames, file, line);
    }
  }

  // ----- variables of a frame ----------------------------------------------

  /** `+variableId.split('_')[1]`: the frame number, `None` for `NaN`. Only
      plain decimal digits are read; the empty text reads as 0. */
  function FrameNumber(variableId: string): Option<nat>
  {
    var parts := Split(variableId, '_');
    if |parts| < 2 then None
    else if forall i :: 0 <= i < |parts[1]| ==> IsDigit(parts[1][i]) then Some(DigitsValue(parts[1]))
    else None
  }

  /** `getVariables(variableId)`: frame 0 means the pending list, any other
      number the stored list of that frame (`undefined` past the end). */
  function VariablesFor(variableId: string, pending: seq<Variable>, variablesFrame: seq<seq<Variable>>): Option<seq<Variable>>
  {
    match FrameNumber(variableId)
    case None => None
    case Some(n) =>
      if n == 0 then Some(pending)
      else if n < |variablesFrame| then Some(variablesFrame[n])
      else None
  }

  /** `local_<n>` reads back the frame number n. */
  lemma {:induction false} FrameNumberOfLocal(n: nat)
    ensures FrameNumber("local_" + NatToString(n)) == Some(n)
  {
    var digits := NatToString(n);
    assert "local_" + digits == "local" + ['_'] + digits;
    SplitAfter("local", digits, '_');
    assert '_' !in digits;
    SplitNoSep(digits, '_');
    DigitsRoundTrip(n);
  }

  /** The default id `local_0` names frame 0. */
  lemma DefaultFrameNumber()
    ensures FrameNumber("local_0") == Some(0)
  {
    FrameNumberOfLocal(0);
    assert NatToString(0) == "0";
    assert "local_" + NatToString(0) == "local_0";
  }

  /** `local_0` is the pending list; `local_n` for n > 0 is frame n's list. */
  lemma VariablesForLocal(n: nat, pending: seq<Variable>, variablesFrame: seq<seq<Variable>>)
    ensures n == 0 ==> VariablesFor("local_" + NatToString(n), pending, variablesFrame) == Some(pending)
    ensures 0 < n < |variablesFrame| ==>
      VariablesFor("local_" + NatToString(n), pending, variablesFrame) == Some(variablesFrame[n])
    ensures n > 0 && n >= |variablesFrame| ==> VariablesFor("local_" + NatToString(n), pending, variablesFrame) == None
  {
    FrameNumberOfLocal(n);
  }
}
