/** The one-entry cache of the source file being debugged, with the current
    position in it (src/runtime/contractManager.ts). Reading a file is the
    map `files` from path to content; a path missing from it cannot be read. */
module Contracts {
  import opened Wrappers
  import opened Text

  /** The content of a file split into lines, as `toString().split('\n')`. */
  function Lines(content: string): (lines: seq<string>)
    ensures |lines| == Occurrences(content, '\n') + 1
    ensures Join(lines, '\n') == content
    ensures forall i :: 0 <= i < |lines| ==> '\n' !in lines[i]
  {
    SplitLength(content, '\n');
    JoinSplit(content, '\n');
    Split(content, '\n')
  }

  /** Whether `setOrUpdateContractSource(path)` returns normally: the path
      is already the source, or the file can be read. */
  predicate Loads(source: Option<string>, path: string, files: map<string, string>)
  {
    source == Some(path) || path in files
  }

  /** The lines held after `setOrUpdateContractSource(path)`, whether or not
      it threw. */
  function LoadedLines(source: Option<string>, lines: seq<string>, path: string, files: map<string, string>): seq<string>
  {
    if source != Some(path) && path in files then Lines(files[path]) else lines
  }

  class ContractManager {
    /** `None` while the field is still `undefined`. */
    var contractSource: Option<string>
    /** Empty while the field is still `undefined`. */
    var contractLines: seq<string>
    var currentLine: int

    constructor ()
      ensures currentLine == 0
      ensures contractSource == None && contractLines == []
    {
      currentLine := 0;
      contractSource := None;
      contractLines := [];
    }

    /** Reloads the lines only when the path changes. The source records the
        new path before it reads the file, so a failed read (`ok` false,
        the source throws) leaves the new path with the old lines. */
    method SetOrUpdateContractSource(path: string, files: map<string, string>) returns (ok: bool)
      modifies this`contractSource, this`contractLines
      ensures contractSource == Some(path)
      ensures old(contractSource) == Some(path) ==> ok && contractLines == old(contractLines)
      ensures old(contractSource) != Some(path) ==>
        ok == (path in files) &&
        contractLines == (if path in files then Lines(files[path]) else old(contractLines))
      ensures ok == Loads(old(contractSource), path, files)
      ensures contractLines == LoadedLines(old(contractSource), old(contractLines), path, files)
    {
      ok := true;
      if contractSource != Some(path) {
        contractSource := Some(path);
        if path in files {
          contractLines := Lines(files[path]);
        } else {
          ok := false;
        }
      }
    }

    method SetContractLine(line: int)
      modifies this`currentLine
      ensures currentLine == line
    {
      currentLine := line;
    }

    /** `None` before the first load. */
    function GetSourceFile(): (r: Option<string>)
      reads this
      ensures r == contractSource
    {
      contractSource
    }

    function GetCurrentLine(): (r: int)
      reads this
      ensures r == currentLine
    {
      currentLine
    }

    function GetContractLines(): (r: seq<string>)
      reads this
      ensures r == contractLines
    {
      contractLines
    }
  }

  /** Two loads of the same path in a row: the second reads nothing and
      changes nothing, whatever the first did. */
  method LoadTwice(m: ContractManager, path: string, files: map<string, string>) returns (first: bool, second: bool)
    modifies m
    ensures first == Loads(old(m.contractSource), path, files)
    ensures second
    ensures m.contractSource == Some(path) && m.currentLine == old(m.currentLine)
    ensures m.contractLines == LoadedLines(old(m.contractSource), old(m.contractLines), path, files)
    ensures old(m.contractSource) != Some(path) && path in files ==> first && m.contractLines == Lines(files[path])
  {
    first := m.SetOrUpdateContractSource(path, files);
    ghost var lines := m.contractLines;
    second := m.SetOrUpdateContractSource(path, files);
    assert m.contractLines == lines;
  }
}
