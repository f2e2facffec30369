/** From the text of a file and the chunks of an update hunk to the text that replaces it. */
module FileUpdate {
  import opened Basics
  import opened Text
  import opened PatchSyntax
  import opened SeekSequence
  import opened Replacements

  /** `split('\n')` without the empty piece that a final newline leaves. */
  function KeptLines(text: string): seq<string> {
    DropLastBlank(Split(text))
  }

  /** A final empty piece is added back unless the lines already end with one. */
  function Terminated(lines: seq<string>): seq<string> {
    if EndsBlank(lines) then lines else lines + [""]
  }

  function NewContents(text: string, chunks: seq<UpdateFileChunk>): (r: Result<string, ReplacementError>) {
    var lines := KeptLines(text);
    var plan := Computed(lines, chunks);
    if plan.Err? then Err(plan.error)
    else
      ComputedInBounds(lines, chunks);
      Ok(Join(Terminated(Applied(lines, plan.value))))
  }

  method DeriveNewContents(text: string, chunks: seq<UpdateFileChunk>) returns (r: Result<string, ReplacementError>)
    ensures r == NewContents(text, chunks)
  {
    hide Computed, Applied;
    var lines := Split(text);
    if EndsBlank(lines) {
      lines := lines[..|lines| - 1];
    }
    var plan := ComputeReplacements(lines, chunks);
    if plan.Err? {
      return Err(plan.error);
    }
    var newLines := ApplyReplacements(lines, plan.value);
    if !EndsBlank(newLines) {
      newLines := newLines + [""];
    }
    r := Ok(Join(newLines));
  }

  lemma {:induction false} JoinEndsInNewline(lines: seq<string>)
    requires EndsBlank(lines)
    ensures |lines| == 1 ==> Join(lines) == ""
    ensures |lines| > 1 ==> Join(lines) == Join(lines[..|lines| - 1]) + "\n"
  {
    if |lines| > 1 {
      var init := lines[..|lines| - 1];
      assert lines == init + [""];
      JoinSnoc(init, "");
      assert Join(init) + "\n" + "" == Join(init) + "\n";
    }
  }

  /** An updated file is empty or ends with a newline. */
  lemma {:induction false} UpdatedFileEndsInNewline(text: string, chunks: seq<UpdateFileChunk>)
    requires NewContents(text, chunks).Ok?
    ensures var s := NewContents(text, chunks).value; s == "" || s[|s| - 1] == '\n'
  {
    hide Join, Applied, Computed;
    ComputedInBounds(KeptLines(text), chunks);
    var lines := Terminated(Applied(KeptLines(text), Computed(KeptLines(text), chunks).value));
    JoinEndsInNewline(lines);
  }

  /** A later update sees the lines this one wrote, less a blank last line. */
  lemma {:induction false} NextUpdateSeesTheseLines(lines: seq<string>)
    requires AllLineFree(lines)
    ensures KeptLines(Join(Terminated(lines))) == DropLastBlank(lines)
  {
    SplitJoin(Terminated(lines));
  }

  /** The chunks are found, and replacing them gives the lines that were there. */
  predicate ChangesNoLine(text: string, chunks: seq<UpdateFileChunk>) {
    var lines := KeptLines(text);
    var plan := Computed(lines, chunks);
    ComputedInBounds(lines, chunks);
    plan.Ok? && Applied(lines, plan.value) == lines
  }

  /** An update that changes no line leaves the text alone exactly when it is empty or ends with one
      newline: a missing final newline is added, and of several the last is lost. */
  lemma {:induction false} UnchangedLinesKeepTextIff(text: string, chunks: seq<UpdateFileChunk>)
    requires ChangesNoLine(text, chunks)
    ensures NewContents(text, chunks) == Ok(text)
       <==> text == "" || (|text| >= 2 && text[|text| - 1] == '\n' && text[|text| - 2] != '\n')
  {
    hide Computed, Applied;
    var pieces := Split(text);
    JoinSplit(text);
    if EndsBlank(pieces) {
      JoinEndsInNewline(pieces);
      var kept := pieces[..|pieces| - 1];
      if |pieces| > 1 {
        LastOfJoin(kept);
        if EndsBlank(kept) {
          JoinEndsInNewline(kept);
        } else {
          assert kept + [""] == pieces;
        }
      }
    } else {
      LastOfJoin(pieces);
      JoinSnoc(pieces, "");
    }
  }

  /** The last character of a join is that of the last line, when it has one. */
  lemma {:induction false} LastOfJoin(lines: seq<string>)
    requires lines != [] && AllLineFree(lines)
    ensures var last := lines[|lines| - 1];
            last != "" ==> Join(lines) != "" && Join(lines)[|Join(lines)| - 1] == last[|last| - 1] && last[|last| - 1] != '\n'
  {
    if |lines| > 1 {
      LastOfJoin(lines[1..]);
    }
  }

  // ---------------------------------------------------------------- diffs apply where they were taken

  /** One change of a diff: the region it replaces, and perhaps a line before it named as context. */
  datatype Edit = Edit(context: Option<nat>, region: Replacement)

  function Regions(edits: seq<Edit>): Plan {
    if edits == [] then [] else [edits[0].region] + Regions(edits[1..])
  }

  predicate EditOk(lines: seq<string>, e: Edit) {
    End(e.region) <= |lines| && (e.context.Some? ==> e.context.value < |lines|)
  }

  function OldBlock(lines: seq<string>, r: Replacement): seq<string>
    requires End(r) <= |lines|
  {
    lines[r.start..End(r)]
  }

  function EditChunk(lines: seq<string>, e: Edit): UpdateFileChunk
    requires EditOk(lines, e)
  {
    UpdateFileChunk(if e.context.Some? then Some(lines[e.context.value]) else None, OldBlock(lines, e.region), e.region.newLines, false)
  }

  /** The chunks that a diff against `lines` with these changes would list. */
  function DiffChunks(lines: seq<string>, edits: seq<Edit>): seq<UpdateFileChunk>
    requires forall i :: 0 <= i < |edits| ==> EditOk(lines, edits[i])
  {
    if edits == [] then [] else assert EditOk(lines, edits[0]); [EditChunk(lines, edits[0])] + DiffChunks(lines, edits[1..])
  }

  /** Where the search for the old lines begins. */
  function SearchFrom(e: Edit, from: nat): nat { if e.context.Some? then e.context.value + 1 else from }

  /** Reading on from `from`, the context line and the region's old lines come first where the diff took
      them; a region without old lines is an addition at the end. */
  ghost predicate FirstThere(lines: seq<string>, e: Edit, from: nat) {
    && EditOk(lines, e)
    && (e.context.Some? ==> from <= e.context.value && lines[e.context.value] !in lines[from..e.context.value])
    && (if e.region.oldLen == 0 then e.region.start == InsertionPoint(lines)
        else var block := OldBlock(lines, e.region);
             SearchFrom(e, from) <= e.region.start
             && forall i :: SearchFrom(e, from) <= i < e.region.start ==> !Matches(Exact, lines, block, i))
  }

  ghost predicate Unambiguous(lines: seq<string>, edits: seq<Edit>, from: nat)
    decreases |edits|
  {
    edits == [] ||
    (&& FirstThere(lines, edits[0], from)
     && Unambiguous(lines, edits[1..], if edits[0].region.oldLen == 0 then SearchFrom(edits[0], from) else End(edits[0].region)))
  }

  lemma {:induction false} UnambiguousOk(lines: seq<string>, edits: seq<Edit>, from: nat)
    requires Unambiguous(lines, edits, from)
    ensures forall i :: 0 <= i < |edits| ==> EditOk(lines, edits[i])
    decreases |edits|
  {
    hide EditOk, Matches;
    if edits != [] {
      UnambiguousOk(lines, edits[1..], if edits[0].region.oldLen == 0 then SearchFrom(edits[0], from) else End(edits[0].region));
      assert forall i :: 0 < i < |edits| ==> edits[i] == edits[1..][i - 1];
    }
  }

  lemma ContextIsFound(lines: seq<string>, from: nat, at: nat)
    requires from <= at < |lines| && lines[at] !in lines[from..at]
    ensures Seek(lines, [lines[at]], from, false) == Some(at)
  {
    var pattern := [lines[at]];
    forall i | from <= i < at ensures !Matches(Exact, lines, pattern, i) {
      assert lines[i] == lines[from..at][i - from];
      assert Key(Exact, lines[i + 0]) != Key(Exact, pattern[0]);
    }
    BlockIsFound(lines, pattern, from, at);
  }

  /** Such a change is found where it was taken. */
  lemma EditIsFound(lines: seq<string>, e: Edit, from: nat)
    requires FirstThere(lines, e, from)
    ensures var chunk := EditChunk(lines, e);
            && AfterContext(lines, chunk, from) == Some(SearchFrom(e, from))
            && (e.region.oldLen > 0 ==> LocateChunk(lines, chunk, SearchFrom(e, from)) == Some(e.region))
  {
    hide Seek;
    if e.context.Some? { ContextIsFound(lines, from, e.context.value); }
    if e.region.oldLen > 0 {
      BlockIsFound(lines, OldBlock(lines, e.region), SearchFrom(e, from), e.region.start) by { BlockIsThere(lines, e.region); }
    }
    hide Matches;
  }

  lemma BlockIsThere(lines: seq<string>, r: Replacement)
    requires End(r) <= |lines|
    ensures |OldBlock(lines, r)| == r.oldLen && Matches(Exact, lines, OldBlock(lines, r), r.start)
  {
  }

  lemma BlockIsFound(lines: seq<string>, block: seq<string>, from: nat, at: nat)
    requires block != [] && from <= at && at + |block| <= |lines| && Matches(Exact, lines, block, at)
    requires forall i :: from <= i < at ==> !Matches(Exact, lines, block, i)
    ensures Seek(lines, block, from, false) == Some(at)
  {
    EarliestIsFirstMatch(Exact, lines, block, from, at);
    hide Matches;
  }

  lemma {:induction false} DiffChunksPlan(lines: seq<string>, edits: seq<Edit>, from: nat)
    requires Unambiguous(lines, edits, from)
    ensures forall i :: 0 <= i < |edits| ==> EditOk(lines, edits[i])
    ensures PlanChunks(lines, DiffChunks(lines, edits), from) == Ok(Regions(edits))
    decreases |edits|
  {
    UnambiguousOk(lines, edits, from);
    if edits != [] {
      var e := edits[0];
      assert EditOk(lines, e);
      EditIsFound(lines, e, from);
      DiffChunksPlan(lines, edits[1..], if e.region.oldLen == 0 then SearchFrom(e, from) else End(e.region));
      hide AfterContext, LocateChunk, Unambiguous, SearchFrom;
      assert DiffChunks(lines, edits)[1..] == DiffChunks(lines, edits[1..]);
      assert e.region.oldLen == 0 ==> e.region == Replacement(InsertionPoint(lines), 0, e.region.newLines);
    }
  }

  /** A diff whose changes are unambiguous is planned exactly where it was taken. When its regions do not
      clash, the result is the file with those regions, and only those, replaced. */
  lemma {:induction false} UnambiguousDiffApplies(lines: seq<string>, edits: seq<Edit>)
    requires Unambiguous(lines, edits, 0)
    ensures forall i :: 0 <= i < |edits| ==> EditOk(lines, edits[i])
    ensures Computed(lines, DiffChunks(lines, edits)) == Ok(SortByStart(Regions(edits)))
    ensures NoClash(Regions(edits)) ==>
              var plan := SortByStart(Regions(edits));
              Disjoint(plan, 0, |lines|) && Applicable(plan, |lines|) && Applied(lines, plan) == Splice(lines, plan, 0)
  {
    DiffChunksPlan(lines, edits, 0);
    hide PlanChunks, Disjoint, Unambiguous, NoClash, SortByStart, Applied;
    if NoClash(Regions(edits)) {
      ClashFreeUpdateIsSplice(lines, DiffChunks(lines, edits));
    }
  }

  lemma KeptOfJoin(lines: seq<string>)
    requires AllLineFree(lines)
    ensures KeptLines(Join(lines + [""])) == lines
    ensures lines != [] && lines[|lines| - 1] != "" ==> KeptLines(Join(lines)) == lines
  {
    SplitJoin(lines + [""]);
    if lines != [] { SplitJoin(lines); }
    hide Split, Join;
    assert (lines + [""])[..|lines|] == lines;
  }

  /** The text an update writes: a diff taken from a file's lines, applied to its text, gives the text of
      the spliced lines, ended by a newline unless the last line is blank already. A file without a final
      newline gets one. */
  lemma {:induction false} DiffAppliesToText(lines: seq<string>, edits: seq<Edit>)
    requires AllLineFree(lines) && Unambiguous(lines, edits, 0) && NoClash(Regions(edits))
    ensures var plan := SortByStart(Regions(edits));
            && (forall i :: 0 <= i < |edits| ==> EditOk(lines, edits[i])) && Disjoint(plan, 0, |lines|)
            && var after, chunks := Splice(lines, plan, 0), DiffChunks(lines, edits);
               var written := if after != [] && after[|after| - 1] == "" then Join(after) else Join(after + [""]);
               && NewContents(Join(lines + [""]), chunks) == Ok(written)
               && (lines != [] && lines[|lines| - 1] != "" ==> NewContents(Join(lines), chunks) == Ok(written))
  {
    UnambiguousDiffApplies(lines, edits);
    KeptOfJoin(lines);
    hide KeptLines, Computed, Applied, Splice, Join, Disjoint, SortByStart, Regions, Unambiguous, DiffChunks;
  }

  /** An update fails exactly when a context line or a block of old lines is found nowhere. */
  lemma UpdateFailsIff(text: string, chunks: seq<UpdateFileChunk>, error: ReplacementError)
    ensures NewContents(text, chunks) == Err(error) <==> FailsBy(KeptLines(text), chunks, 0, error)
  {
    PlanFailsBy(KeptLines(text), chunks, 0, error);
    hide KeptLines, PlanChunks, Applied, SortByStart, FailsBy;
  }

  /** And so for every clash-free update of any text. */
  lemma {:induction false} UpdateSplicesText(text: string, chunks: seq<UpdateFileChunk>)
    requires PlanChunks(KeptLines(text), chunks, 0).Ok? && NoClash(PlanChunks(KeptLines(text), chunks, 0).value)
    ensures var lines := KeptLines(text);
            var plan := SortByStart(PlanChunks(lines, chunks, 0).value);
            && Disjoint(plan, 0, |lines|)
            && var after := Splice(lines, plan, 0);
               NewContents(text, chunks) == Ok(if after != [] && after[|after| - 1] == "" then Join(after) else Join(after + [""]))
  {
    ClashFreeUpdateIsSplice(KeptLines(text), chunks);
    hide KeptLines, PlanChunks, Applied, Splice, Join, Disjoint, SortByStart, NoClash;
  }
}
