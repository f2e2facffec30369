/** The parser object: its methods change the buffer, the line number, the mode, the hunks and the
    environment id in place, in the order of tests the source uses. */
module PatchParser {
  import opened Basics
  import opened Text
  import opened PatchSyntax
  import opened StreamingParser

  class StreamingPatchParser {
    var lineBuffer: string
    var lineNumber: nat
    var mode: Mode
    var hunks: seq<Hunk>
    var environmentId: Option<string>

    constructor ()
      ensures Value() == Fresh
    {
      lineBuffer, lineNumber, mode, hunks, environmentId := "", 0, NotStarted, [], None;
    }

    function Current(): State
      reads this
    {
      State(mode, hunks, environmentId)
    }

    function Value(): Parser
      reads this
    {
      Parser(lineBuffer, Current(), lineNumber)
    }

    method EnsureUpdateHunkIsNotEmpty(line: string) returns (error: Option<ParseError>)
      ensures error == LeavingProblem(Current(), line, lineNumber)
    {
      if hunks != [] && hunks[|hunks| - 1].UpdateFile? {
        var chunks := hunks[|hunks| - 1].chunks;
        if chunks == [] && mode.InUpdateFile? {
          return Some(InvalidHunk(EmptyUpdateHunk(hunks[|hunks| - 1].path), mode.hunkLineNumber));
        }
        if LastHollow(chunks) {
          if line == END_PATCH {
            return Some(InvalidHunk(NoLinesInChunk, lineNumber));
          }
          return Some(InvalidHunk(UnexpectedLine(line), lineNumber));
        }
      }
      return None;
    }

    method HandleHunkHeadersAndEndPatch(trimmed: string) returns (r: Result<bool, ParseError>)
      modifies this`mode, this`hunks, this`environmentId
      ensures var spec := StepHeader(old(Current()), trimmed, lineNumber);
              match spec
              case Err(e) => r == Err(e) && Current() == old(Current())
              case Ok(None) => r == Ok(false) && Current() == old(Current())
              case Ok(Some(st)) => r == Ok(true) && Current() == st
    {
      hide LeavingProblem, Trim;
      if mode.StartedPatch? && ENVIRONMENT_ID <= trimmed {
        if environmentId.Some? {
          return Err(InvalidPatch(EnvironmentIdRepeated));
        }
        var id := Trim(trimmed[|ENVIRONMENT_ID|..]);
        if id == "" {
          return Err(InvalidPatch(EnvironmentIdEmpty));
        }
        environmentId := Some(id);
        return Ok(true);
      }
      if HeaderOf(trimmed).NoHeader? {
        return Ok(false);
      }
      var problem := EnsureUpdateHunkIsNotEmpty(trimmed);
      if problem.Some? {
        return Err(problem.value);
      }
      match HeaderOf(trimmed) {
        case EndPatch =>
          mode := EndedPatch;
        case Add(path) =>
          hunks := hunks + [AddFile(path, "")];
          mode := InAddFile;
        case Delete(path) =>
          hunks := hunks + [DeleteFile(path)];
          mode := InDeleteFile;
        case Update(path) =>
          hunks := hunks + [UpdateFile(path, None, [])];
          mode := InUpdateFile(lineNumber);
      }
      return Ok(true);
    }

    /** The tests of an update-hunk line in source order, on the raw text. */
    method ProcessUpdateLine(line: string) returns (error: Option<ParseError>)
      requires hunks != [] && hunks[|hunks| - 1].UpdateFile?
      modifies this`hunks
      ensures var spec := StepBody(old(hunks[|hunks| - 1]), line, lineNumber);
              match spec
              case Err(e) => error == Some(e) && hunks == old(hunks)
              case Ok(hunk) => error == None && hunks == old(hunks)[..|old(hunks)| - 1] + [hunk]
    {
      hide TrimEnd;
      var hunk := hunks[|hunks| - 1];
      var chunks := hunk.chunks;
      var updateLine := TrimEnd(line);
      TrimEndRemovesSuffix(line);
      assert MOVE_TO[4] != END_OF_FILE[4];
      assert hunks == hunks[..|hunks| - 1] + [hunk];
      if Sealed(chunks) {
        if updateLine == "" {
          return None;
        }
        if updateLine != EMPTY_CONTEXT && !(CONTEXT <= updateLine) {
          return Some(InvalidHunk(ContextMarkerExpected(line), lineNumber));
        }
      }
      if chunks == [] && hunk.movePath.None? && MOVE_TO <= updateLine {
        SetLast(hunk.(movePath := Some(updateLine[|MOVE_TO|..])));
        return None;
      }
      if (updateLine == EMPTY_CONTEXT || CONTEXT <= updateLine) && LastHollow(chunks) {
        return Some(InvalidHunk(UnexpectedLine(line), lineNumber));
      }
      if updateLine == EMPTY_CONTEXT {
        SetLast(hunk.(chunks := chunks + [NewChunk(None)]));
        return None;
      }
      if CONTEXT <= updateLine {
        SetLast(hunk.(chunks := chunks + [NewChunk(Some(updateLine[|CONTEXT|..]))]));
        return None;
      }
      if updateLine == END_OF_FILE {
        if LastHollow(chunks) {
          return Some(InvalidHunk(NoLinesInChunk, lineNumber));
        }
        SetLast(hunk.(chunks := SealLast(chunks)));
        return None;
      }
      if line == "" {
        SetLast(hunk.(chunks := ExtendLast(chunks, [""], [""])));
        return None;
      }
      if line[0] == ' ' {
        SetLast(hunk.(chunks := ExtendLast(chunks, [line[1..]], [line[1..]])));
        return None;
      }
      if line[0] == '+' {
        SetLast(hunk.(chunks := ExtendLast(chunks, [], [line[1..]])));
        return None;
      }
      if line[0] == '-' {
        SetLast(hunk.(chunks := ExtendLast(chunks, [line[1..]], [])));
        return None;
      }
      if chunks != [] && !LastHollow(chunks) {
        return Some(InvalidHunk(ContextMarkerExpected(line), lineNumber));
      }
      return Some(InvalidHunk(UnexpectedLine(line), lineNumber));
    }

    method SetLast(hunk: Hunk)
      requires hunks != []
      modifies this`hunks
      ensures hunks == old(hunks)[..|old(hunks)| - 1] + [hunk]
    {
      hunks := hunks[..|hunks| - 1] + [hunk];
    }

    /** An accepted line moves the state by `Step`; a rejected one leaves mode, hunks and
        environment id as they were. */
    method ProcessLine(line: string) returns (error: Option<ParseError>)
      modifies this`mode, this`hunks, this`environmentId
      ensures var spec := Step(old(Current()), line, lineNumber);
              match spec
              case Err(e) => error == Some(e) && Current() == old(Current())
              case Ok(st) => error == None && Current() == st
    {
      hide StepHeader, StepBody, Trim, TrimEnd;
      if mode.NotStarted? {
        if Trim(line) == BEGIN_PATCH {
          mode := StartedPatch;
          return None;
        }
        return Some(InvalidPatch(FirstLineNotBegin));
      }
      if mode.EndedPatch? {
        return if Trim(line) == "" then None else Some(InvalidPatch(LastLineNotEnd));
      }
      var handled := HandleHunkHeadersAndEndPatch(if mode.InUpdateFile? then TrimEnd(line) else Trim(line));
      if handled.Err? {
        return Some(handled.error);
      }
      if handled.value {
        return None;
      }
      if mode.InUpdateFile? {
        if hunks != [] && hunks[|hunks| - 1].UpdateFile? {
          error := ProcessUpdateLine(line);
          return;
        }
        return Some(InvalidHunk(UnexpectedLine(line), lineNumber));
      }
      if mode.InAddFile? && "+" <= line && hunks != [] && hunks[|hunks| - 1].AddFile? {
        var last := hunks[|hunks| - 1];
        SetLast(AddFile(last.path, last.contents + line[1..] + "\n"));
        return None;
      }
      return Some(InvalidHunk(NotAHeader(Trim(line)), lineNumber));
    }

    method PushDelta(delta: string) returns (r: Result<seq<Hunk>, ParseError>)
      modifies this
      ensures var fed := Feed(old(Value()), delta);
              && Value() == fed.parser
              && r == if fed.error.Some? then Err(fed.error.value) else Ok(hunks)
    {
      hide Step;
      ghost var start := Value();
      var i := 0;
      while i < |delta|
        invariant 0 <= i <= |delta|
        invariant Feed(start, delta) == Feed(Value(), delta[i..])
      {
        assert delta[i..][0] == delta[i] && delta[i..][1..] == delta[i + 1..];
        if delta[i] == '\n' {
          ghost var before := Value();
          var line := lineBuffer;
          lineBuffer := "";
          line := StripCR(line);
          lineNumber := lineNumber + 1;
          var error := ProcessLine(line);
          assert Fed(Value(), error) == CompleteLine(before);
          if error.Some? {
            return Err(error.value);
          }
        } else {
          lineBuffer := lineBuffer + [delta[i]];
        }
        i := i + 1;
      }
      r := Ok(hunks);
    }

    method Finish() returns (r: Result<seq<Hunk>, ParseError>)
      modifies this
      ensures Value() == StreamingParser.Finish(old(Value())).parser
      ensures r == StreamingParser.Finish(old(Value())).result
    {
      hide Step, Trim, LeavingProblem;
      if lineBuffer != "" {
        var line := lineBuffer;
        lineBuffer := "";
        lineNumber := lineNumber + 1;
        if Trim(line) == END_PATCH {
          var problem := EnsureUpdateHunkIsNotEmpty(Trim(line));
          if problem.Some? {
            return Err(problem.value);
          }
          mode := EndedPatch;
        } else {
          var error := ProcessLine(line);
          if error.Some? {
            return Err(error.value);
          }
        }
      }
      if !mode.EndedPatch? {
        return Err(InvalidPatch(LastLineNotEnd));
      }
      r := Ok(hunks);
    }
  }
}
