/** The FIFO of commands waiting to be sent to the debugging backend
    (src/taskQueue.ts). Normal flow appends at the tail; breakpoint
    commands are put at the head so that they overtake everything queued. */
module Queue {
  import opened Wrappers
  import opened Text

  /** The records `{command, args}` the backend understands. */
  datatype Command =
    | Step
    | InfoLocals
    | Backtrace
    | Continue
    | Break(arg: string)   // `{command: "break", args: [arg]}`
    | Delete(arg: string)  // `{command: "delete", args: [arg]}`
  {
    /** The `command` field on the wire. */
    function Name(): string
    {
      match this
      case Step => "step"
      case InfoLocals => "info_locals"
      case Backtrace => "backtrace"
      case Continue => "continue"
      case Break(_) => "break"
      case Delete(_) => "delete"
    }
  }

  /** The backend's name for a line of a file: `<basename>:<line>`. */
  function Locator(path: string, line: int): string
  {
    Basename(path) + ":" + IntToString(line)
  }

  /** Directories do not matter to a locator: two paths with the same file
      name address the same backend breakpoint. */
  lemma LocatorIgnoresDirectory(dir: string, name: string, line: int)
    requires '/' !in name
    ensures Locator(dir + "/" + name, line) == Locator(name, line)
    ensures Basename(dir + "/" + name) == name
  {
    var path := dir + "/" + name;
    var b := Basename(path);
    var n := |path|;
    assert path[n - |name| - 1] == '/';
    assert path[n - |name|..] == name;
    if |b| != |name| {
      assert false;
    }
  }

  class TaskQueue {
    var tasks: seq<Command>

    /** A new queue already holds the first `step`. */
    constructor ()
      ensures tasks == [Step]
    {
      tasks := [Step];
    }

    /** Removes and returns the head; an empty queue yields `null`. */
    method ProcessTaskQueue() returns (command: Option<Command>)
      modifies this
      ensures old(tasks) == [] ==> command == None && tasks == []
      ensures old(tasks) != [] ==> command == Some(old(tasks)[0]) && tasks == old(tasks)[1..]
    {
      if |tasks| > 0 {
        command := Some(tasks[0]);
        tasks := tasks[1..];
      } else {
        command := None;
      }
    }

    function IsEmpty(): (empty: bool)
      reads this
      ensures empty <==> tasks == []
    {
      |tasks| == 0
    }

    method Empty()
      modifies this
      ensures tasks == []
    {
      tasks := [];
    }

    method GetInfoCommand()
      modifies this
      ensures tasks == old(tasks) + [InfoLocals, Backtrace]
    {
      tasks := tasks + [InfoLocals];
      tasks := tasks + [Backtrace];
    }

    /** A step is always followed by a request for the locals and the stack. */
    method StepCommand()
      modifies this
      ensures tasks == old(tasks) + [Step, InfoLocals, Backtrace]
      ensures tasks[..|old(tasks)|] == old(tasks)
    {
      tasks := tasks + [Step];
      GetInfoCommand();
    }

    method ContinueCommand()
      modifies this
      ensures tasks == old(tasks) + [Continue, InfoLocals, Backtrace]
      ensures tasks[..|old(tasks)|] == old(tasks)
    {
      tasks := tasks + [Continue];
      GetInfoCommand();
    }

    /** Puts `break <basename>:<line>` ahead of everything queued. */
    method SetBreakpointCommand(path: string, line: int)
      modifies this
      ensures tasks == [Break(Locator(path, line))] + old(tasks)
      ensures tasks[1..] == old(tasks)
    {
      var args := Basename(path) + ":" + IntToString(line);
      tasks := [Break(args)] + tasks;
    }

    method SetFunctionBreakpointCommand(functionName: string)
      modifies this
      ensures tasks == [Break(functionName)] + old(tasks)
    {
      tasks := [Break(functionName)] + tasks;
    }

    method ClearBreakpointCommand(args: string)
      modifies this
      ensures tasks == [Delete(args)] + old(tasks)
    {
      tasks := [Delete(args)] + tasks;
    }
  }

  /** Whatever was queued, a breakpoint command put at the head is the next
      one taken, and the queue is then as it was. */
  method BreakOvertakes(q: TaskQueue, path: string, line: int) returns (next: Option<Command>)
    modifies q
    ensures next == Some(Break(Locator(path, line)))
    ensures q.tasks == old(q.tasks)
  {
    q.SetBreakpointCommand(path, line);
    next := q.ProcessTaskQueue();
  }

  /** Taking commands until the queue is empty after a step yields what was
      queued before, then `step`, `info_locals` and `backtrace`, in that
      order. */
  method StepDrainsInOrder(q: TaskQueue) returns (taken: seq<Command>)
    modifies q
    ensures taken == old(q.tasks) + [Step, InfoLocals, Backtrace]
    ensures q.tasks == []
  {
    q.StepCommand();
    ghost var all := q.tasks;
    taken := [];
    while !q.IsEmpty()
      invariant taken + q.tasks == all
      decreases |q.tasks|
    {
      ghost var before, prior := q.tasks, taken;
      var next := q.ProcessTaskQueue();
      taken := taken + [next.value];
      MoveHead(prior, before);
    }
    assert taken == taken + q.tasks;
  }

  /** Moving the head of the queue to the end of what was taken keeps the
      concatenation of both. */
  lemma MoveHead(taken: seq<Command>, queue: seq<Command>)
    requires queue != []
    ensures taken + [queue[0]] + queue[1..] == taken + queue
  {
    assert [queue[0]] + queue[1..] == queue;
  }
}
