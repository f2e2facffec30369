/** The character-fed patch parser. */
module StreamingParser {
  import opened Basics
  import opened Text
  import opened PatchSyntax

  const BEGIN_PATCH := "*** Begin Patch"
  const END_PATCH := "*** End Patch"
  const ADD_FILE := "*** Add File: "
  const DELETE_FILE := "*** Delete File: "
  const UPDATE_FILE := "*** Update File: "
  const MOVE_TO := "*** Move to: "
  const END_OF_FILE := "*** End of File"
  const CONTEXT := "@@ "
  const EMPTY_CONTEXT := "@@"
  const ENVIRONMENT_ID := "*** Environment ID:"

  datatype Problem =
    | FirstLineNotBegin
    | LastLineNotEnd
    | EnvironmentIdRepeated
    | EnvironmentIdEmpty
    | NotAHeader(line: string)
    | EmptyUpdateHunk(path: string)
    | NoLinesInChunk
    | UnexpectedLine(line: string)
    | ContextMarkerExpected(line: string)

  datatype ParseError =
    | InvalidPatch(problem: Problem)
    | InvalidHunk(problem: Problem, lineNumber: nat)

  datatype Mode =
    | NotStarted
    | StartedPatch
    | InAddFile
    | InDeleteFile
    | InUpdateFile(hunkLineNumber: nat)
    | EndedPatch

  datatype State = State(mode: Mode, hunks: seq<Hunk>, environmentId: Option<string>)

  datatype Parser = Parser(lineBuffer: string, state: State, lineNumber: nat)

  const Fresh := Parser("", State(NotStarted, [], None), 0)

  // ---------------------------------------------------------------- what one line means

  datatype Header = EndPatch | Add(path: string) | Delete(path: string) | Update(path: string) | NoHeader

  function HeaderOf(line: string): Header {
    if line == END_PATCH then EndPatch
    else if ADD_FILE <= line then Add(line[|ADD_FILE|..])
    else if DELETE_FILE <= line then Delete(line[|DELETE_FILE|..])
    else if UPDATE_FILE <= line then Update(line[|UPDATE_FILE|..])
    else NoHeader
  }

  /** A line inside an update hunk that is not a header. An empty line stands for an empty kept line. */
  datatype BodyLine =
    | MoveTo(path: string)
    | Context(context: Option<string>)
    | EofMarker
    | Keep(text: string)
    | Insert(text: string)
    | Remove(text: string)
    | Junk

  function BodyOf(line: string): BodyLine {
    var u := TrimEnd(line);
    if MOVE_TO <= u then MoveTo(u[|MOVE_TO|..])
    else if u == EMPTY_CONTEXT then Context(None)
    else if CONTEXT <= u then Context(Some(u[|CONTEXT|..]))
    else if u == END_OF_FILE then EofMarker
    else if line == "" then Keep("")
    else if line[0] == ' ' then Keep(line[1..])
    else if line[0] == '+' then Insert(line[1..])
    else if line[0] == '-' then Remove(line[1..])
    else Junk
  }

  // ---------------------------------------------------------------- one line against the state

  predicate Hollow(chunk: UpdateFileChunk) { chunk.oldLines == [] && chunk.newLines == [] }

  predicate LastHollow(chunks: seq<UpdateFileChunk>) { chunks != [] && Hollow(chunks[|chunks| - 1]) }

  predicate Sealed(chunks: seq<UpdateFileChunk>) { chunks != [] && chunks[|chunks| - 1].isEndOfFile }

  function NewChunk(context: Option<string>): UpdateFileChunk { UpdateFileChunk(context, [], [], false) }

  /** Lines go to the last chunk; the first line of a hunk without a marker opens one. */
  function ExtendLast(chunks: seq<UpdateFileChunk>, removed: seq<string>, added: seq<string>): seq<UpdateFileChunk> {
    var cs := if chunks == [] then [NewChunk(None)] else chunks;
    var c := cs[|cs| - 1];
    cs[..|cs| - 1] + [c.(oldLines := c.oldLines + removed, newLines := c.newLines + added)]
  }

  function SealLast(chunks: seq<UpdateFileChunk>): seq<UpdateFileChunk> {
    if chunks == [] then [] else chunks[..|chunks| - 1] + [chunks[|chunks| - 1].(isEndOfFile := true)]
  }

  function LastHunk(st: State): Option<Hunk> {
    if st.hunks == [] then None else Some(st.hunks[|st.hunks| - 1])
  }

  function WithLast(st: State, hunk: Hunk): State
    requires st.hunks != []
  {
    st.(hunks := st.hunks[..|st.hunks| - 1] + [hunk])
  }

  /** `ensure_update_hunk_is_not_empty`: what is wrong with leaving the current hunk now. */
  function LeavingProblem(st: State, line: string, n: nat): Option<ParseError> {
    if LastHunk(st).Some? && LastHunk(st).value.UpdateFile? then
      var UpdateFile(path, _, chunks) := LastHunk(st).value;
      if chunks == [] && st.mode.InUpdateFile? then Some(InvalidHunk(EmptyUpdateHunk(path), st.mode.hunkLineNumber))
      else if LastHollow(chunks) then
        Some(InvalidHunk(if line == END_PATCH then NoLinesInChunk else UnexpectedLine(line), n))
      else None
    else None
  }

  /** `handle_hunk_headers_and_end_patch`; `None` means the line is not one of these. */
  function StepHeader(st: State, line: string, n: nat): Result<Option<State>, ParseError> {
    if st.mode.StartedPatch? && ENVIRONMENT_ID <= line then
      var id := Trim(line[|ENVIRONMENT_ID|..]);
      if st.environmentId.Some? then Err(InvalidPatch(EnvironmentIdRepeated))
      else if id == "" then Err(InvalidPatch(EnvironmentIdEmpty))
      else Ok(Some(st.(environmentId := Some(id))))
    else if HeaderOf(line).NoHeader? then Ok(None)
    else if LeavingProblem(st, line, n).Some? then Err(LeavingProblem(st, line, n).value)
    else
      match HeaderOf(line)
      case EndPatch => Ok(Some(st.(mode := EndedPatch)))
      case Add(path) => Ok(Some(st.(mode := InAddFile, hunks := st.hunks + [AddFile(path, "")])))
      case Delete(path) => Ok(Some(st.(mode := InDeleteFile, hunks := st.hunks + [DeleteFile(path)])))
      case Update(path) => Ok(Some(st.(mode := InUpdateFile(n), hunks := st.hunks + [UpdateFile(path, None, [])])))
  }

  /** A line of an update hunk, judged by what the hunk holds so far. */
  function StepBody(hunk: Hunk, line: string, n: nat): Result<Hunk, ParseError>
    requires hunk.UpdateFile?
  {
    var chunks := hunk.chunks;
    var body := BodyOf(line);
    if Sealed(chunks) && TrimEnd(line) == "" then Ok(hunk)
    else if Sealed(chunks) && !body.Context? then Err(InvalidHunk(ContextMarkerExpected(line), n))
    else
      match body
      case Context(context) =>
        if LastHollow(chunks) then Err(InvalidHunk(UnexpectedLine(line), n))
        else Ok(hunk.(chunks := chunks + [NewChunk(context)]))
      case EofMarker =>
        if LastHollow(chunks) then Err(InvalidHunk(NoLinesInChunk, n))
        else Ok(hunk.(chunks := SealLast(chunks)))
      case Keep(text) => Ok(hunk.(chunks := ExtendLast(chunks, [text], [text])))
      case Insert(text) => Ok(hunk.(chunks := ExtendLast(chunks, [], [text])))
      case Remove(text) => Ok(hunk.(chunks := ExtendLast(chunks, [text], [])))
      case MoveTo(path) =>
        if chunks == [] && hunk.movePath.None? then Ok(hunk.(movePath := Some(path)))
        else Err(Misplaced(chunks, line, n))
      case Junk => Err(Misplaced(chunks, line, n))
  }

  function Misplaced(chunks: seq<UpdateFileChunk>, line: string, n: nat): ParseError {
    InvalidHunk(if chunks != [] && !LastHollow(chunks) then ContextMarkerExpected(line) else UnexpectedLine(line), n)
  }

  /** `process_line` for line number `n`. */
  function Step(st: State, line: string, n: nat): (r: Result<State, ParseError>) {
    if st.mode.NotStarted? then
      if Trim(line) == BEGIN_PATCH then Ok(st.(mode := StartedPatch)) else Err(InvalidPatch(FirstLineNotBegin))
    else if st.mode.EndedPatch? then
      if Trim(line) == "" then Ok(st) else Err(InvalidPatch(LastLineNotEnd))
    else
      var header := StepHeader(st, if st.mode.InUpdateFile? then TrimEnd(line) else Trim(line), n);
      if header.Err? then Err(header.error)
      else if header.value.Some? then Ok(header.value.value)
      else StepContent(st, line, n)
  }

  /** A line that is no header: it belongs to the hunk being read. */
  function StepContent(st: State, line: string, n: nat): Result<State, ParseError> {
    if st.mode.InUpdateFile? then
      if LastHunk(st).Some? && LastHunk(st).value.UpdateFile? then
        var body := StepBody(LastHunk(st).value, line, n);
        if body.Err? then Err(body.error) else Ok(WithLast(st, body.value))
      else Err(InvalidHunk(UnexpectedLine(line), n))
    else if st.mode.InAddFile? && "+" <= line && LastHunk(st).Some? && LastHunk(st).value.AddFile? then
      var AddFile(path, contents) := LastHunk(st).value;
      Ok(WithLast(st, AddFile(path, contents + line[1..] + "\n")))
    else Err(InvalidHunk(NotAHeader(Trim(line)), n))
  }

  // ---------------------------------------------------------------- characters and lines

  /** A parser together with the error that stopped it, if any. */
  datatype Fed = Fed(parser: Parser, error: Option<ParseError>)

  /** The buffered line is complete. A rejected line only costs its number. */
  function CompleteLine(p: Parser): Fed {
    var r := Step(p.state, StripCR(p.lineBuffer), p.lineNumber + 1);
    if r.Ok? then Fed(Parser("", r.value, p.lineNumber + 1), None)
    else Fed(Parser("", p.state, p.lineNumber + 1), Some(r.error))
  }

  /** `push_delta`: character by character, stopping at the first rejected line. */
  function Feed(p: Parser, text: string): Fed
    decreases |text|
  {
    if text == [] then Fed(p, None)
    else if text[0] == '\n' then
      var line := CompleteLine(p);
      if line.error.Some? then line else Feed(line.parser, text[1..])
    else Feed(p.(lineBuffer := p.lineBuffer + [text[0]]), text[1..])
  }

  /** Deltas fed one after the other until one fails. */
  function FeedAll(p: Parser, deltas: seq<string>): Fed
    decreases |deltas|
  {
    if deltas == [] then Fed(p, None)
    else
      var fed := Feed(p, deltas[0]);
      if fed.error.Some? then fed else FeedAll(fed.parser, deltas[1..])
  }

  function Concat(deltas: seq<string>): string {
    if deltas == [] then "" else deltas[0] + Concat(deltas[1..])
  }

  /** The simple form, on the pieces of `split('\n')`: every piece but the last completes a line,
      which is folded through `Step`; the last stays in the buffer. */
  function FeedLines(p: Parser, pieces: seq<string>): Fed
    requires pieces != []
    decreases |pieces|
  {
    var buffered := p.(lineBuffer := p.lineBuffer + pieces[0]);
    if |pieces| == 1 then Fed(buffered, None)
    else
      var line := CompleteLine(buffered);
      if line.error.Some? then line else FeedLines(line.parser, pieces[1..])
  }

  lemma {:induction false} FeedConcat(p: Parser, a: string, b: string)
    ensures var first := Feed(p, a);
            Feed(p, a + b) == if first.error.Some? then first else Feed(first.parser, b)
    decreases |a|
  {
    hide CompleteLine;
    if a == [] {
      assert a + b == b;
    } else {
      assert (a + b)[1..] == a[1..] + b;
      if a[0] == '\n' {
        if CompleteLine(p).error.None? {
          FeedConcat(CompleteLine(p).parser, a[1..], b);
        }
      } else {
        FeedConcat(p.(lineBuffer := p.lineBuffer + [a[0]]), a[1..], b);
      }
    }
  }

  /** Where the text is cut makes no difference to state, hunks or error. */
  lemma {:induction false} DeltaBoundariesDoNotMatter(p: Parser, deltas: seq<string>)
    ensures FeedAll(p, deltas) == Feed(p, Concat(deltas))
    decreases |deltas|
  {
    if deltas != [] {
      FeedConcat(p, deltas[0], Concat(deltas[1..]));
      var first := Feed(p, deltas[0]);
      if first.error.None? {
        DeltaBoundariesDoNotMatter(first.parser, deltas[1..]);
      }
    }
  }

  /** Feeding text one character at a time is folding `process_line` over its complete lines. */
  lemma {:induction false} FeedIsFoldOfLines(p: Parser, text: string)
    ensures Feed(p, text) == FeedLines(p, Split(text))
    decreases |text|
  {
    hide CompleteLine;
    if text == [] {
      assert p.lineBuffer + "" == p.lineBuffer;
    } else {
      var rest := Split(text[1..]);
      var pieces := Split(text);
      if text[0] == '\n' {
        assert p.lineBuffer + "" == p.lineBuffer;
        assert pieces[1..] == rest;
        if CompleteLine(p).error.None? {
          FeedIsFoldOfLines(CompleteLine(p).parser, text[1..]);
        }
      } else {
        var p' := p.(lineBuffer := p.lineBuffer + [text[0]]);
        FeedIsFoldOfLines(p', text[1..]);
        assert p.lineBuffer + ([text[0]] + rest[0]) == p'.lineBuffer + rest[0];
        assert pieces[1..] == rest[1..];
      }
    }
  }

  // ---------------------------------------------------------------- finishing

  datatype Finished = Finished(parser: Parser, result: Result<seq<Hunk>, ParseError>)

  /** The unterminated last line, with the end marker accepted in every mode. */
  function LastLine(p: Parser): Fed {
    if p.lineBuffer == "" then Fed(p, None)
    else
      var n := p.lineNumber + 1;
      var r :=
        if Trim(p.lineBuffer) == END_PATCH then
          var problem := LeavingProblem(p.state, END_PATCH, n);
          if problem.Some? then Err(problem.value) else Ok(p.state.(mode := EndedPatch))
        else Step(p.state, p.lineBuffer, n);
      if r.Ok? then Fed(Parser("", r.value, n), None) else Fed(Parser("", p.state, n), Some(r.error))
  }

  function Finish(p: Parser): Finished {
    var fed := LastLine(p);
    if fed.error.Some? then Finished(fed.parser, Err(fed.error.value))
    else if !fed.parser.state.mode.EndedPatch? then Finished(fed.parser, Err(InvalidPatch(LastLineNotEnd)))
    else Finished(fed.parser, Ok(fed.parser.state.hunks))
  }
}
