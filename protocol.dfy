/** The replies of the debugging backend, `{status, response: {type, ...}}`,
    one constructor per `type` the adapter distinguishes. */
module Protocol {
  import opened Wrappers
  import opened Frames

  /** An entry of `response.variables`: `{name, value_string}`. */
  datatype LocalValue = LocalValue(name: string, valueString: string)

  /** `response.code`: a location with the highlighted range and, for a
      revert, the message. */
  datatype Code = Code(path: string, lineIndex: int, linePos: int, lineLength: int, text: string)

  datatype Response =
    | InfoLocalsReply(variables: seq<LocalValue>)
    | BacktraceReply(frames: seq<BackendFrame>)
    | BreakReply(breakpointName: string)
    | RevertReply(code: Code)
    | EndReply
      /** `location` is `None` when `code.path` is null. */
    | StepReply(location: Option<Code>)
    | BreakpointReply(location: Option<Code>)
      /** A reply of any other type. */
    | OtherReply

  datatype Message = Message(status: string, response: Response)

  /** The record the `info_locals` loop builds from one reported local:
      every value is kept as its display string. */
  function LocalVariable(local: LocalValue): Variable
  {
    Variable(local.name, "string", local.valueString, 0)
  }

  /** The `info_locals` loop: one record per reported local, in order. */
  method ReadLocals(locals: seq<LocalValue>) returns (variables: seq<Variable>)
    ensures |variables| == |locals|
    ensures forall i :: 0 <= i < |locals| ==>
      variables[i] == Variable(locals[i].name, "string", locals[i].valueString, 0)
  {
    variables := [];
    var i := 0;
    while i < |locals|
      invariant 0 <= i <= |locals| && |variables| == i
      invariant forall k :: 0 <= k < i ==> variables[k] == LocalVariable(locals[k])
    {
      variables := variables + [LocalVariable(locals[i])];
      i := i + 1;
    }
  }
}
