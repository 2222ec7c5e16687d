/** The session object that owns the reconstructed stack, the variables of
    each frame and the exception state (src/runtime/solitudeDebugSession.ts). */
module Session {
  import opened Wrappers
  import opened Frames

  class SolitudeDebugSession {
    /** The pending variables list, the candidate for frame 0. */
    var variables: seq<Variable>
    var variablesFrame: seq<seq<Variable>>
    var stack: seq<Frame>
    /** No method of the class ever sets this flag. */
    var breakpointFound: bool
    var exceptionFound: bool
    var exceptionMessage: Option<string>

    constructor ()
      ensures stack == [] && variablesFrame == [] && variables == []
      ensures !breakpointFound && !exceptionFound && exceptionMessage == None
    {
      stack := [];
      variablesFrame := [];
      variables := [];
      breakpointFound := false;
      exceptionFound := false;
      exceptionMessage := None;
    }

    method ClearVariables()
      modifies this`variables
      ensures variables == []
    {
      variables := [];
    }

    /** Appends one record; its `variablesReference` is always 0. */
    method AddVariable(name: string, typ: string, value: string)
      modifies this`variables
      ensures variables == old(variables) + [Variable(name, typ, value, 0)]
      ensures variables[|variables| - 1].variablesReference == 0
    {
      variables := variables + [Variable(name, typ, value, 0)];
    }

    /** `getVariables(variableId = 'local_0')`: the default id names the
        pending list; any list returned is the pending one or a stored one. */
    function GetVariables(variableId: string): (r: Option<seq<Variable>>)
      reads this
      ensures variableId == "local_0" ==> r == Some(variables)
      ensures r.Some? ==> r.value == variables || r.value in variablesFrame
      ensures FrameNumber(variableId).None? ==> r.None?
    {
      DefaultFrameNumber();
      VariablesFor(variableId, variables, variablesFrame)
    }

    /** Rebuilds the stack from a full report: position i holds the frame the
        backend numbers i, with its unit and line, and every entry is marked
        as having no variables of its own. */
    method UpdateStackFrame(frames: seq<BackendFrame>)
      requires HasIndices(frames, 0, |frames| - 1)
      modifies this`stack
      ensures |stack| == |frames|
      ensures forall i :: 0 <= i < |frames| ==> stack[i] == Reported(FindByIndex(frames, i).value)
      ensures forall i :: 0 <= i < |frames| ==> stack[i].index == i && stack[i].invalidVariables
    {
      stack := [];
      var index := |frames| - 1;
      while index >= 0
        invariant -1 <= index <= |frames| - 1
        invariant |stack| == |frames| - 1 - index
        invariant forall k :: 0 <= k < |stack| ==> stack[k] == Reported(FindByIndex(frames, index + 1 + k).value)
      {
        var frame := FindByIndex(frames, index).value;
        stack := [Frame(frame.index, Label(frame.description), Some(frame.code.unitname), frame.code.lineIndex, true)] + stack;
        index := index - 1;
      }
    }

    /** Every held frame moves one place outwards (the first loop of
        `addNewStackFrameIfPossible`). */
    method RelabelFrames()
      modifies this`stack
      ensures stack == Relabelled(old(stack))
    {
      stack := Relabel(stack);
    }

    /** The interrupt case: keep two frames, label the outer one with the
        reported count and invent the frames in between, each with a copy of
        the pending variables. */
    method BackfillFrames(frames: seq<BackendFrame>, file: Option<string>, currentLine: int)
      requires |stack| >= 1 && HasIndices(frames, 1, |frames| - 2)
      modifies this`stack, this`variablesFrame
      ensures stack == Backfilled(frames, file, currentLine) + Truncated(old(stack), |frames|)
      ensures variablesFrame == Copies(old(variables), BackfillCount(|frames|)) + old(variablesFrame)
    {
      var kept := stack[..if |stack| < 2 then |stack| else 2];
      kept := kept[|kept| - 1 := kept[|kept| - 1].(index := |frames| - 1)];
      assert kept == Truncated(old(stack), |frames|);
      stack, variablesFrame := Frames.Backfill(frames, file, currentLine, kept, variables, variablesFrame);
    }

    /** A call was entered: see `Frames.Grown`. */
    method AddNewStackFrameIfPossible(frames: seq<BackendFrame>, contractSource: string, currentLine: int)
      requires GrowDefined(stack, frames, breakpointFound || exceptionFound)
      modifies this`stack, this`variablesFrame
      ensures Snapshot(stack, variablesFrame) ==
        Grown(Snapshot(old(stack), old(variablesFrame)), variables, frames,
              Some(contractSource), currentLine, breakpointFound || exceptionFound)
    {
      var file := Some(contractSource);
      RelabelFrames();
      if |stack| > 1 {
        stack := stack[|stack| - 1 := stack[|stack| - 1].(file := file, line := currentLine)];
      }
      if breakpointFound || exceptionFound {
        BackfillFrames(frames, file, currentLine);
      }
      var frame := FindByIndex(frames, 0).value;
      stack := [Frame(0, Label(frame.description), file, currentLine, false)] + stack;
      variablesFrame := [variables] + variablesFrame;
    }

    /** Frame 0 moves to the given location; nothing else changes. */
    method UpdateContractSourceLineInTopStackFrame(contractSource: string, currentLine: int)
      requires |stack| > 0
      modifies this`stack
      ensures stack == WithTop(old(stack), Some(contractSource), currentLine)
    {
      stack := stack[0 := stack[0].(line := currentLine, file := Some(contractSource))];
    }

    /** A call returned: the innermost frame and its variables go. */
    method RemoveLastStackFrame()
      modifies this`stack, this`variablesFrame
      ensures Snapshot(stack, variablesFrame) == Popped(Snapshot(old(stack), old(variablesFrame)))
    {
      if |stack| > 0 { stack := stack[1..]; }
      if |variablesFrame| > 0 { variablesFrame := variablesFrame[1..]; }
    }

    function GetStack(): (r: seq<Frame>)
      reads this
      ensures r == stack
    {
      stack
    }

    method SetExceptionFoundFlag()
      modifies this`exceptionFound
      ensures exceptionFound
    {
      exceptionFound := true;
    }

    function IsExceptionFound(): (r: bool)
      reads this
      ensures r == exceptionFound
    {
      exceptionFound
    }

    method SetExceptionMessage(message: string)
      modifies this`exceptionMessage
      ensures exceptionMessage == Some(message)
    {
      exceptionMessage := Some(message);
    }

    function GetLastExceptionMessage(): (r: Option<string>)
      reads this
      ensures r == exceptionMessage
    {
      exceptionMessage
    }
  }
}
