/** From the text of a patch argument to its hunks: boundary checks, then the streaming parser. */
module PatchText {
  import opened Basics
  import opened Text
  import opened PatchSyntax
  import opened StreamingParser
  import opened PatchParser

  datatype ParsedPatch = ParsedPatch(hunks: seq<Hunk>, environmentId: Option<string>)

  datatype ParseMode = Strict | Lenient

  function CheckStrict(lines: seq<string>): Result<seq<string>, ParseError> {
    if lines == [] then Err(InvalidPatch(LastLineNotEnd))
    else if Trim(lines[0]) != BEGIN_PATCH then Err(InvalidPatch(FirstLineNotBegin))
    else if Trim(lines[|lines| - 1]) != END_PATCH then Err(InvalidPatch(LastLineNotEnd))
    else Ok(lines)
  }

  predicate HeredocOpen(line: string) { line == "<<EOF" || line == "<<'EOF'" || line == "<<\"EOF\"" }

  predicate HeredocClose(line: string) { |line| >= 3 && line[|line| - 3..] == "EOF" }

  /** Lenient mode also takes a patch still wrapped in a heredoc. */
  function CheckLenient(lines: seq<string>): Result<seq<string>, ParseError> {
    var strict := CheckStrict(lines);
    if strict.Ok? then strict
    else if |lines| >= 4 && HeredocOpen(lines[0]) && HeredocClose(lines[|lines| - 1]) then
      CheckStrict(lines[1..|lines| - 1])
    else strict
  }

  function ParseLines(lines: seq<string>): Result<ParsedPatch, ParseError> {
    var fed := Feed(Fresh, Join(lines));
    if fed.error.Some? then Err(fed.error.value)
    else
      var done := StreamingParser.Finish(fed.parser);
      if done.result.Err? then Err(done.result.error)
      else Ok(ParsedPatch(done.result.value, done.parser.state.environmentId))
  }

  function Parsed(patch: string, mode: ParseMode): Result<ParsedPatch, ParseError> {
    var lines := Lines(Trim(patch));
    var checked := if mode.Strict? then CheckStrict(lines) else CheckLenient(lines);
    if checked.Err? then Err(checked.error) else ParseLines(checked.value)
  }

  /** `parse_patch_text`: a fresh parser object is driven over the checked lines. */
  method ParsePatchText(patch: string, mode: ParseMode) returns (r: Result<ParsedPatch, ParseError>)
    ensures r == Parsed(patch, mode)
  {
    hide Feed, StreamingParser.Finish, CheckStrict, CheckLenient, Lines, Trim, Join;
    var lines := Lines(Trim(patch));
    var checked := if mode.Strict? then CheckStrict(lines) else CheckLenient(lines);
    if checked.Err? {
      return Err(checked.error);
    }
    var parser := new StreamingPatchParser();
    var pushed := parser.PushDelta(Join(checked.value));
    if pushed.Err? {
      return Err(pushed.error);
    }
    var hunks := parser.Finish();
    if hunks.Err? {
      return Err(hunks.error);
    }
    r := Ok(ParsedPatch(hunks.value, parser.environmentId));
  }
}
