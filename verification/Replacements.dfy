/** Planning the replacements of an update hunk and splicing them into the file. */
module Replacements {
  import opened Basics
  import opened PatchSyntax
  import opened SeekSequence

  /** Replace `oldLen` lines starting at line `start` by `newLines`. */
  datatype Replacement = Replacement(start: nat, oldLen: nat, newLines: seq<string>)

  datatype ReplacementError =
    | ContextNotFound(context: string)
    | LinesNotFound(lines: seq<string>)

  type Plan = seq<Replacement>

  function End(r: Replacement): nat { r.start + r.oldLen }

  predicate EndsBlank(lines: seq<string>) { lines != [] && lines[|lines| - 1] == "" }

  /** Where a chunk without old lines goes: the end, or just before a final empty line. */
  function InsertionPoint(lines: seq<string>): nat {
    if EndsBlank(lines) then |lines| - 1 else |lines|
  }

  function DropLastBlank(lines: seq<string>): seq<string> {
    if EndsBlank(lines) then lines[..|lines| - 1] else lines
  }

  /** Locate the old lines of a chunk; when that fails and they end with an empty line, retry
      both sides without it. */
  function LocateChunk(lines: seq<string>, chunk: UpdateFileChunk, from: nat): (r: Option<Replacement>) {
    var found := Seek(lines, chunk.oldLines, from, chunk.isEndOfFile);
    if found.Some? then Some(Replacement(found.value, |chunk.oldLines|, chunk.newLines))
    else if EndsBlank(chunk.oldLines) then
      var pattern := DropLastBlank(chunk.oldLines);
      var again := Seek(lines, pattern, from, chunk.isEndOfFile);
      if again.Some? then Some(Replacement(again.value, |pattern|, DropLastBlank(chunk.newLines))) else None
    else None
  }

  /** Where the search continues once the chunk's context line is found. */
  function AfterContext(lines: seq<string>, chunk: UpdateFileChunk, from: nat): (r: Option<nat>) {
    if chunk.changeContext.None? then Some(from)
    else
      var at := Seek(lines, [chunk.changeContext.value], from, false);
      if at.Some? then Some(at.value + 1) else None
  }

  /** The replacements in chunk order, the search for each starting where the last one ended. */
  function PlanChunks(lines: seq<string>, chunks: seq<UpdateFileChunk>, from: nat): (r: Result<Plan, ReplacementError>)
  {
    if chunks == [] then Ok([])
    else
      var chunk := chunks[0];
      var at := AfterContext(lines, chunk, from);
      if at.None? then Err(ContextNotFound(chunk.changeContext.value))
      else if chunk.oldLines == [] then
        Prepend(Replacement(InsertionPoint(lines), 0, chunk.newLines), PlanChunks(lines, chunks[1..], at.value))
      else
        var region := LocateChunk(lines, chunk, at.value);
        if region.None? then Err(LinesNotFound(chunk.oldLines))
        else Prepend(region.value, PlanChunks(lines, chunks[1..], End(region.value)))
  }

  function Prepend(head: Replacement, tail: Result<Plan, ReplacementError>): Result<Plan, ReplacementError> {
    if tail.Ok? then Ok([head] + tail.value) else tail
  }

  /** `sort_by_key` on the start line, which is stable: an earlier entry stays before its equals. */
  function SortByStart(plan: Plan): (r: Plan) {
    if plan == [] then [] else Insert(plan[0], SortByStart(plan[1..]))
  }

  function Insert(x: Replacement, sorted: Plan): (r: Plan) {
    if sorted == [] || x.start <= sorted[0].start then [x] + sorted
    else [sorted[0]] + Insert(x, sorted[1..])
  }

  function Computed(lines: seq<string>, chunks: seq<UpdateFileChunk>): (r: Result<Plan, ReplacementError>) {
    var plan := PlanChunks(lines, chunks, 0);
    if plan.Ok? then Ok(SortByStart(plan.value)) else plan
  }

  // ---------------------------------------------------------------- what a plan means

  /** A search for a non-empty block found its best match at `at`. */
  ghost predicate FoundAt(lines: seq<string>, pattern: seq<string>, from: nat, eof: bool, at: nat) {
    && pattern != [] && |pattern| <= |lines|
    && var begin := if eof then |lines| - |pattern| else from;
       exists tier :: BestMatch(lines, pattern, begin, tier, at)
  }

  ghost predicate FoundNowhere(lines: seq<string>, pattern: seq<string>, from: nat, eof: bool) {
    && pattern != []
    && (|pattern| > |lines| || NoMatch(IgnorePunctuation, lines, pattern, if eof then |lines| - |pattern| else from))
  }

  /** The search for the chunk's lines begins right behind the best match of its context line. */
  ghost predicate BehindContext(lines: seq<string>, chunk: UpdateFileChunk, from: nat, start: nat) {
    if chunk.changeContext.None? then start == from
    else start > 0 && FoundAt(lines, [chunk.changeContext.value], from, false, start - 1)
  }

  /** The region of a chunk whose search begins at `start`: the insertion point for a pure addition, else
      the best match of its old lines or, when they are found nowhere and end with a blank line, of the
      lines before that blank. */
  ghost predicate Placed(lines: seq<string>, chunk: UpdateFileChunk, start: nat, r: Replacement) {
    if chunk.oldLines == [] then
      r == Replacement(if lines != [] && lines[|lines| - 1] == "" then |lines| - 1 else |lines|, 0, chunk.newLines)
    else
      || (FoundAt(lines, chunk.oldLines, start, chunk.isEndOfFile, r.start) && r.oldLen == |chunk.oldLines| && r.newLines == chunk.newLines)
      || (&& FoundNowhere(lines, chunk.oldLines, start, chunk.isEndOfFile) && EndsBlank(chunk.oldLines)
          && var pattern := DropLastBlank(chunk.oldLines);
             && (if pattern == [] then r.start == start else FoundAt(lines, pattern, start, chunk.isEndOfFile, r.start))
             && r.oldLen == |pattern| && r.newLines == DropLastBlank(chunk.newLines))
  }

  /** One region for each chunk; the search goes on behind the region, or where it stood for a pure
      addition. */
  ghost predicate PlannedBy(lines: seq<string>, chunks: seq<UpdateFileChunk>, from: nat, plan: Plan)
    decreases |chunks|
  {
    if chunks == [] then plan == []
    else
      && plan != []
      && exists start: nat ::
           && BehindContext(lines, chunks[0], from, start) && Placed(lines, chunks[0], start, plan[0])
           && PlannedBy(lines, chunks[1..], if chunks[0].oldLines == [] then start else End(plan[0]), plan[1..])
  }

  lemma {:induction false} SeekIsFoundAt(lines: seq<string>, pattern: seq<string>, from: nat, eof: bool, at: nat)
    requires pattern != []
    ensures Seek(lines, pattern, from, eof) == Some(at) <==> FoundAt(lines, pattern, from, eof, at)
    ensures Seek(lines, pattern, from, eof) == None <==> FoundNowhere(lines, pattern, from, eof)
  {
    SeekFindsBest(lines, pattern, from, eof);
    hide Seek, NoMatch;
    if |pattern| <= |lines| {
      var begin := SearchStart(lines, pattern, from, eof);
      if FoundAt(lines, pattern, from, eof, at) {
        var tier :| BestMatch(lines, pattern, begin, tier, at);
        BestIsSome(lines, pattern, begin, tier, at);
        var r := Seek(lines, pattern, from, eof);
        var t :| BestMatch(lines, pattern, begin, t, r.value);
        BestMatchUnique(lines, pattern, begin, tier, at, t, r.value);
      }
    }
  }

  /** A best match is a match after normalisation too. */
  lemma BestIsSome(lines: seq<string>, pattern: seq<string>, from: nat, tier: Tier, at: nat)
    requires BestMatch(lines, pattern, from, tier, at)
    ensures !NoMatch(IgnorePunctuation, lines, pattern, from)
  {
    TiersWeaken(tier, IgnorePunctuation, lines, pattern, at);
    hide Matches;
  }

  lemma ContextIsBehind(lines: seq<string>, chunk: UpdateFileChunk, from: nat, start: nat)
    ensures AfterContext(lines, chunk, from) == Some(start) <==> BehindContext(lines, chunk, from, start)
  {
    hide Seek, FoundAt;
    if chunk.changeContext.Some? && start > 0 {
      SeekIsFoundAt(lines, [chunk.changeContext.value], from, false, start - 1);
    }
  }

  lemma {:induction false} LocatedIsPlaced(lines: seq<string>, chunk: UpdateFileChunk, start: nat, r: Replacement)
    requires chunk.oldLines != []
    ensures LocateChunk(lines, chunk, start) == Some(r) <==> Placed(lines, chunk, start, r)
  {
    hide Seek, FoundAt, FoundNowhere;
    var eof, pattern := chunk.isEndOfFile, DropLastBlank(chunk.oldLines);
    SeekIsFoundAt(lines, chunk.oldLines, start, eof, r.start);
    if pattern != [] {
      SeekIsFoundAt(lines, pattern, start, eof, r.start);
    } else {
      assert Seek(lines, [], start, eof) == Some(start) by { EmptySeek(lines, start, eof); }
    }
  }

  lemma EmptySeek(lines: seq<string>, start: nat, eof: bool)
    ensures Seek(lines, [], start, eof) == Some(start)
  {
  }

  /** A plan is computed exactly when each of its regions is where the context line and the old lines of
      its chunk are best matched, searching from where the chunk before left off. */
  lemma {:induction false} PlanIsPlannedBy(lines: seq<string>, chunks: seq<UpdateFileChunk>, from: nat, plan: Plan)
    ensures PlanChunks(lines, chunks, from) == Ok(plan) <==> PlannedBy(lines, chunks, from, plan)
    decreases |chunks|
  {
    hide AfterContext, LocateChunk, BehindContext, Placed;
    if chunks != [] && plan != [] {
      var chunk, region := chunks[0], plan[0];
      assert plan == [region] + plan[1..];
      var at := AfterContext(lines, chunk, from);
      forall start: nat ensures at == Some(start) <==> BehindContext(lines, chunk, from, start) {
        ContextIsBehind(lines, chunk, from, start);
      }
      if at.Some? {
        if chunk.oldLines == [] {
          AdditionIsPlaced(lines, chunk, at.value, region);
          PlanIsPlannedBy(lines, chunks[1..], at.value, plan[1..]);
        } else {
          LocatedIsPlaced(lines, chunk, at.value, region);
          PlanIsPlannedBy(lines, chunks[1..], End(region), plan[1..]);
        }
      }
    }
  }

  lemma AdditionIsPlaced(lines: seq<string>, chunk: UpdateFileChunk, start: nat, r: Replacement)
    requires chunk.oldLines == []
    ensures Placed(lines, chunk, start, r) <==> r == Replacement(InsertionPoint(lines), 0, chunk.newLines)
  {
  }

  /** The first chunk that cannot be placed: its context line, or else its old lines, are found nowhere. */
  ghost predicate FailsBy(lines: seq<string>, chunks: seq<UpdateFileChunk>, from: nat, error: ReplacementError)
    decreases |chunks|
  {
    && chunks != []
    && var chunk := chunks[0];
       || (&& chunk.changeContext.Some? && FoundNowhere(lines, [chunk.changeContext.value], from, false)
           && error == ContextNotFound(chunk.changeContext.value))
       || (exists start: nat :: BehindContext(lines, chunk, from, start)
                                && (forall r :: !Placed(lines, chunk, start, r)) && error == LinesNotFound(chunk.oldLines))
       || (exists start: nat, r :: BehindContext(lines, chunk, from, start) && Placed(lines, chunk, start, r)
                                   && FailsBy(lines, chunks[1..], if chunk.oldLines == [] then start else End(r), error))
  }

  lemma ContextNowhere(lines: seq<string>, chunk: UpdateFileChunk, from: nat)
    ensures AfterContext(lines, chunk, from) == None
       <==> chunk.changeContext.Some? && FoundNowhere(lines, [chunk.changeContext.value], from, false)
  {
    hide Seek, FoundNowhere;
    if chunk.changeContext.Some? {
      SeekIsFoundAt(lines, [chunk.changeContext.value], from, false, 0);
    }
  }

  /** And planning fails with an error exactly when that is the first chunk that cannot be placed. */
  lemma {:induction false} PlanFailsBy(lines: seq<string>, chunks: seq<UpdateFileChunk>, from: nat, error: ReplacementError)
    ensures PlanChunks(lines, chunks, from) == Err(error) <==> FailsBy(lines, chunks, from, error)
    decreases |chunks|
  {
    hide AfterContext, LocateChunk, BehindContext, Placed, FoundNowhere, InsertionPoint;
    if chunks != [] {
      var chunk, rest := chunks[0], chunks[1..];
      var at := AfterContext(lines, chunk, from);
      ContextNowhere(lines, chunk, from);
      forall start: nat ensures at == Some(start) <==> BehindContext(lines, chunk, from, start) {
        ContextIsBehind(lines, chunk, from, start);
      }
      if at.Some? {
        if chunk.oldLines == [] {
          var region := Replacement(InsertionPoint(lines), 0, chunk.newLines);
          forall r ensures Placed(lines, chunk, at.value, r) <==> r == region { AdditionIsPlaced(lines, chunk, at.value, r); }
          PlanFailsBy(lines, rest, at.value, error);
          assert Placed(lines, chunk, at.value, region);
        } else {
          var located := LocateChunk(lines, chunk, at.value);
          forall r ensures located == Some(r) <==> Placed(lines, chunk, at.value, r) {
            LocatedIsPlaced(lines, chunk, at.value, r);
          }
          if located.Some? {
            assert Placed(lines, chunk, at.value, located.value);
            PlanFailsBy(lines, rest, End(located.value), error);
          }
        }
      }
    }
  }

  // ---------------------------------------------------------------- what every plan satisfies

  predicate InBounds(plan: Plan, n: nat) {
    forall i :: 0 <= i < |plan| ==> End(plan[i]) <= n
  }

  predicate Sorted(plan: Plan) {
    forall i, j :: 0 <= i < j < |plan| ==> plan[i].start <= plan[j].start
  }

  lemma {:induction false} SeekInBounds(lines: seq<string>, pattern: seq<string>, from: nat, eof: bool)
    requires from <= |lines|
    ensures var r := Seek(lines, pattern, from, eof);
            r.Some? ==> from <= r.value + |pattern| <= |lines| && (!eof ==> from <= r.value)
  {
    if pattern != [] {
      SeekFindsBest(lines, pattern, from, eof);
    }
  }

  lemma {:induction false} LocateInBounds(lines: seq<string>, chunk: UpdateFileChunk, from: nat)
    requires from <= |lines|
    ensures var r := LocateChunk(lines, chunk, from);
            r.Some? ==> from <= End(r.value) <= |lines| && (!chunk.isEndOfFile ==> from <= r.value.start)
  {
    SeekInBounds(lines, chunk.oldLines, from, chunk.isEndOfFile);
    if EndsBlank(chunk.oldLines) {
      SeekInBounds(lines, DropLastBlank(chunk.oldLines), from, chunk.isEndOfFile);
    }
  }

  lemma {:induction false} AfterContextInBounds(lines: seq<string>, chunk: UpdateFileChunk, from: nat)
    requires from <= |lines|
    ensures var r := AfterContext(lines, chunk, from);
            r.Some? ==> from <= r.value <= |lines|
  {
    if chunk.changeContext.Some? {
      SeekInBounds(lines, [chunk.changeContext.value], from, false);
    }
  }

  /** Every planned region lies inside the file, whatever the chunks are. */
  lemma {:induction false} PlanInBounds(lines: seq<string>, chunks: seq<UpdateFileChunk>, from: nat)
    requires from <= |lines|
    ensures var r := PlanChunks(lines, chunks, from); r.Ok? ==> InBounds(r.value, |lines|)
  {
    if chunks != [] && PlanChunks(lines, chunks, from).Ok? {
      AfterContextInBounds(lines, chunks[0], from);
      var at := AfterContext(lines, chunks[0], from).value;
      LocateInBounds(lines, chunks[0], at);
      PlanInBounds(lines, chunks[1..], if chunks[0].oldLines == [] then at else End(LocateChunk(lines, chunks[0], at).value));
    }
  }

  lemma {:induction false} InsertSorted(x: Replacement, sorted: Plan)
    requires Sorted(sorted)
    ensures Sorted(Insert(x, sorted))
    ensures Insert(x, sorted)[0] == if sorted == [] || x.start <= sorted[0].start then x else sorted[0]
  {
    if sorted != [] && x.start > sorted[0].start {
      InsertSorted(x, sorted[1..]);
      var rest := Insert(x, sorted[1..]);
      assert sorted[0].start <= rest[0].start;
    }
  }

  lemma {:induction false} InsertKeepsAll(x: Replacement, sorted: Plan)
    ensures multiset(Insert(x, sorted)) == multiset(sorted) + multiset{x}
  {
    if sorted != [] && x.start > sorted[0].start {
      InsertKeepsAll(x, sorted[1..]);
      assert sorted == [sorted[0]] + sorted[1..];
    }
  }

  lemma EmptySorted()
    ensures Sorted([])
  {
  }

  /** Sorting orders the plan and keeps every replacement. */
  lemma {:induction false} SortOrders(plan: Plan)
    ensures Sorted(SortByStart(plan))
    ensures multiset(SortByStart(plan)) == multiset(plan)
  {
    hide Sorted, Insert;
    if plan == [] {
      assert Sorted([]) by { EmptySorted(); }
    } else {
      SortOrders(plan[1..]);
      InsertSorted(plan[0], SortByStart(plan[1..]));
      InsertKeepsAll(plan[0], SortByStart(plan[1..]));
      assert plan == [plan[0]] + plan[1..];
    }
  }

  function AtStart(plan: Plan, start: nat): (r: Plan) {
    if plan == [] then []
    else (if plan[0].start == start then [plan[0]] else []) + AtStart(plan[1..], start)
  }

  lemma {:induction false} InsertIsStable(x: Replacement, sorted: Plan, start: nat)
    ensures AtStart(Insert(x, sorted), start) == (if x.start == start then [x] else []) + AtStart(sorted, start)
  {
    if sorted == [] || x.start <= sorted[0].start {
      assert ([x] + sorted)[1..] == sorted;
    } else {
      InsertIsStable(x, sorted[1..], start);
      assert Insert(x, sorted)[1..] == Insert(x, sorted[1..]);
    }
  }

  /** Replacements with one start line keep the order of their chunks. */
  lemma {:induction false} SortIsStable(plan: Plan, start: nat)
    ensures AtStart(SortByStart(plan), start) == AtStart(plan, start)
  {
    if plan != [] {
      SortIsStable(plan[1..], start);
      InsertIsStable(plan[0], SortByStart(plan[1..]), start);
    }
  }

  lemma {:induction false} ComputedInBounds(lines: seq<string>, chunks: seq<UpdateFileChunk>)
    ensures var r := Computed(lines, chunks); r.Ok? ==> Sorted(r.value) && InBounds(r.value, |lines|)
  {
    PlanInBounds(lines, chunks, 0);
    var plan := PlanChunks(lines, chunks, 0);
    if plan.Ok? {
      SortOrders(plan.value);
      var sorted := SortByStart(plan.value);
      forall i | 0 <= i < |sorted| ensures End(sorted[i]) <= |lines| {
        assert sorted[i] in multiset(sorted);
      }
    }
  }

  // ---------------------------------------------------------------- applying a plan

  /** One replacement: at most `oldLen` lines go, and the new ones take their place. */
  function ReplaceAt(lines: seq<string>, r: Replacement): (s: seq<string>)
    requires r.start <= |lines|
    ensures |s| >= r.start && s[..r.start] == lines[..r.start]
  {
    lines[..r.start] + r.newLines + if End(r) <= |lines| then lines[End(r)..] else []
  }

  /** The file has room for every replacement when they are taken last to first. */
  predicate Applicable(plan: Plan, n: nat) {
    Sorted(plan) && forall i :: 0 <= i < |plan| ==> plan[i].start <= n
  }

  /** The plan taken last to first. The lines before the first start stay as they were. */
  function Applied(lines: seq<string>, plan: Plan): (r: seq<string>)
    requires Applicable(plan, |lines|)
    ensures plan == [] ==> r == lines
    ensures plan != [] ==> |r| >= plan[0].start && r[..plan[0].start] == lines[..plan[0].start]
  {
    if plan == [] then lines
    else
      var later := Applied(lines, plan[1..]);
      assert plan[1..] != [] ==> plan[0].start <= plan[1..][0].start;
      assert |later| >= plan[0].start && later[..plan[0].start] == lines[..plan[0].start] by {
        if plan[1..] != [] {
          var s, s1 := plan[0].start, plan[1].start;
          assert later[..s1][..s] == later[..s] && lines[..s1][..s] == lines[..s];
        }
      }
      ReplaceAt(later, plan[0])
  }

  /** Whatever the chunks, overlapping or not: the computed plan has room at every step, and no line
      before the smallest start is touched. */
  lemma AnyUpdateIsSafe(lines: seq<string>, chunks: seq<UpdateFileChunk>)
    requires Computed(lines, chunks).Ok?
    ensures var plan := Computed(lines, chunks).value;
            && InBounds(plan, |lines|) && Applicable(plan, |lines|)
            && (plan == [] ==> Applied(lines, plan) == lines)
            && (forall i :: 0 <= i < |plan| ==> plan[0].start <= plan[i].start)
            && (plan != [] ==> lines[..plan[0].start] <= Applied(lines, plan))
  {
    hide Computed;
    ComputedInBounds(lines, chunks);
  }

  /** Regions in order, none overlapping the next, all between `from` and `n`. */
  predicate Disjoint(plan: Plan, from: nat, n: nat) {
    if plan == [] then from <= n
    else from <= plan[0].start && Disjoint(plan[1..], End(plan[0]), n)
  }

  /** One left-to-right pass: copy up to a region, emit its new lines, skip its old ones. */
  function Splice(lines: seq<string>, plan: Plan, from: nat): (r: seq<string>)
    requires Disjoint(plan, from, |lines|)
  {
    if plan == [] then lines[from..]
    else
      DisjointBounds(plan, from, |lines|);
      lines[from..plan[0].start] + plan[0].newLines + Splice(lines, plan[1..], End(plan[0]))
  }

  lemma {:induction false} DisjointBounds(plan: Plan, from: nat, n: nat)
    requires Disjoint(plan, from, n)
    ensures from <= n && Sorted(plan) && InBounds(plan, n)
    ensures forall i :: 0 <= i < |plan| ==> from <= plan[i].start
  {
    if plan != [] {
      DisjointBounds(plan[1..], End(plan[0]), n);
    }
  }

  lemma ReplaceAtKept(lines: seq<string>, r: Replacement, from: nat, later: seq<string>, tail: seq<string>)
    requires from <= r.start && End(r) <= |lines| && later == lines[..End(r)] + tail
    ensures ReplaceAt(later, r) == lines[..from] + (lines[from..r.start] + r.newLines + tail)
  {
    assert later[End(r)..] == tail;
    assert later[..r.start] == lines[..r.start];
    assert lines[..r.start] == lines[..from] + lines[from..r.start];
  }

  /** The reverse in-place edits compute the left-to-right splice. */
  lemma {:induction false} AppliedIsSplice(lines: seq<string>, plan: Plan, from: nat)
    requires Disjoint(plan, from, |lines|)
    ensures Applicable(plan, |lines|)
    ensures Applied(lines, plan) == lines[..from] + Splice(lines, plan, from)
  {
    DisjointBounds(plan, from, |lines|);
    if plan != [] {
      var r := plan[0];
      AppliedIsSplice(lines, plan[1..], End(r));
      ReplaceAtKept(lines, r, from, Applied(lines, plan[1..]), Splice(lines, plan[1..], End(r)));
    }
  }

  function OldTotal(plan: Plan): nat { if plan == [] then 0 else plan[0].oldLen + OldTotal(plan[1..]) }

  function NewTotal(plan: Plan): nat { if plan == [] then 0 else |plan[0].newLines| + NewTotal(plan[1..]) }

  lemma {:induction false} SpliceLength(lines: seq<string>, plan: Plan, from: nat)
    requires Disjoint(plan, from, |lines|)
    ensures |Splice(lines, plan, from)| + OldTotal(plan) == |lines| - from + NewTotal(plan)
  {
    DisjointBounds(plan, from, |lines|);
    if plan != [] {
      SpliceLength(lines, plan[1..], End(plan[0]));
    }
  }

  /** What the replacements that end at or before line `i` add to the file's length. */
  function Shift(plan: Plan, i: nat): int {
    if plan == [] || i < End(plan[0]) then 0
    else |plan[0].newLines| - plan[0].oldLen + Shift(plan[1..], i)
  }

  /** A line outside every region survives, moved by what the regions before it added or removed. */
  lemma {:induction false} KeptLineSurvives(lines: seq<string>, plan: Plan, from: nat, i: nat)
    requires Disjoint(plan, from, |lines|) && from <= i < |lines|
    requires forall k :: 0 <= k < |plan| ==> !(plan[k].start <= i < End(plan[k]))
    ensures var at := i - from + Shift(plan, i);
            0 <= at < |Splice(lines, plan, from)| && Splice(lines, plan, from)[at] == lines[i]
  {
    DisjointBounds(plan, from, |lines|);
    if plan != [] {
      var head, tail := lines[from..plan[0].start] + plan[0].newLines, Splice(lines, plan[1..], End(plan[0]));
      assert Splice(lines, plan, from) == head + tail;
      if i >= End(plan[0]) {
        KeptLineSurvives(lines, plan[1..], End(plan[0]), i);
        var at := i - End(plan[0]) + Shift(plan[1..], i);
        assert (head + tail)[|head| + at] == tail[at];
      } else {
        assert i < plan[0].start;
        assert (head + tail)[i - from] == lines[from..plan[0].start][i - from];
      }
    }
  }

  // ---------------------------------------------------------------- when the regions are disjoint

  /** No chunk is anchored at the end of the file, and no pure addition goes before a final blank. */
  predicate Orderly(lines: seq<string>, chunks: seq<UpdateFileChunk>) {
    && (forall i :: 0 <= i < |chunks| ==> !chunks[i].isEndOfFile)
    && (EndsBlank(lines) ==> forall i :: 0 <= i < |chunks| ==> chunks[i].oldLines != [])
  }

  /** Two regions, `a` of the earlier chunk, that cannot both stand: sorting leaves `a` first and it
      reaches past the start of `b`, or puts `b` first and that one reaches past the start of `a`. */
  predicate Clash(a: Replacement, b: Replacement) {
    End(a) > b.start && !(b.start < a.start && End(b) <= a.start)
  }

  predicate NoClash(plan: Plan) {
    forall i, j :: 0 <= i < j < |plan| ==> !Clash(plan[i], plan[j])
  }

  /** Every region ends before each later one starts. */
  predicate Apart(plan: Plan) {
    forall i, j :: 0 <= i < j < |plan| ==> End(plan[i]) <= plan[j].start
  }

  predicate Before(x: Replacement, plan: Plan) {
    forall k :: 0 <= k < |plan| ==> End(x) <= plan[k].start
  }

  predicate ClashFree(x: Replacement, plan: Plan) {
    forall k :: 0 <= k < |plan| ==> !Clash(x, plan[k])
  }

  lemma ApartCons(x: Replacement, rest: Plan)
    ensures Apart([x] + rest) <==> Apart(rest) && Before(x, rest)
  {
    var plan := [x] + rest;
    if Apart(plan) {
      forall i, j | 0 <= i < j < |rest| ensures End(rest[i]) <= rest[j].start {
        assert plan[i + 1] == rest[i] && plan[j + 1] == rest[j];
      }
      forall k | 0 <= k < |rest| ensures End(x) <= rest[k].start {
        assert plan[0] == x && plan[k + 1] == rest[k];
      }
    }
  }

  lemma MembersCons(x: Replacement, h: Replacement, rest: Plan)
    ensures Before(x, [h] + rest) <==> End(x) <= h.start && Before(x, rest)
    ensures ClashFree(x, [h] + rest) <==> !Clash(x, h) && ClashFree(x, rest)
  {
    hide Clash;
    var all := [h] + rest;
    assert all[0] == h;
    assert forall k :: 0 <= k < |rest| ==> all[k + 1] == rest[k];
  }

  /** What `x` says of all the members of a plan does not depend on their order. */
  lemma SameMembers(x: Replacement, a: Plan, b: Plan)
    requires multiset(a) == multiset(b)
    ensures Before(x, a) <==> Before(x, b)
    ensures ClashFree(x, a) <==> ClashFree(x, b)
  {
    hide Clash;
    forall k | 0 <= k < |a| ensures a[k] in b { assert a[k] in multiset(a); }
    forall k | 0 <= k < |b| ensures b[k] in a { assert b[k] in multiset(b); }
  }

  lemma {:induction false} DisjointIsApart(plan: Plan, from: nat, n: nat)
    ensures Disjoint(plan, from, n)
       <==> from <= n && InBounds(plan, n) && Apart(plan) && forall i :: 0 <= i < |plan| ==> from <= plan[i].start
  {
    if plan != [] {
      var x, rest := plan[0], plan[1..];
      DisjointIsApart(rest, End(x), n);
      assert plan == [x] + rest;
      ApartCons(x, rest);
      assert InBounds(plan, n) <==> End(x) <= n && InBounds(rest, n);
    }
  }

  /** A region that starts first clashes with none exactly when it ends before all of them start. */
  lemma FirstClashes(x: Replacement, sorted: Plan)
    requires Sorted(sorted) && (sorted == [] || x.start <= sorted[0].start)
    ensures Before(x, sorted) <==> ClashFree(x, sorted)
  {
    forall k | 0 <= k < |sorted| ensures Clash(x, sorted[k]) <==> End(x) > sorted[k].start {
      assert x.start <= sorted[0].start <= sorted[k].start;
    }
  }

  /** Inserting keeps regions apart exactly when the new one, of an earlier chunk, clashes with none. */
  lemma {:induction false} InsertApartIff(x: Replacement, sorted: Plan)
    requires Sorted(sorted)
    ensures Apart(Insert(x, sorted)) <==> Apart(sorted) && ClashFree(x, sorted)
  {
    hide Apart, Before, ClashFree;
    if sorted == [] || x.start <= sorted[0].start {
      ApartCons(x, sorted);
      FirstClashes(x, sorted);
    } else {
      var h, rest := sorted[0], sorted[1..];
      assert sorted == [h] + rest;
      InsertApartIff(x, rest);
      ApartCons(h, rest);
      ApartCons(h, Insert(x, rest));
      InsertKeepsAll(x, rest);
      SameMembers(h, Insert(x, rest), [x] + rest);
      MembersCons(h, x, rest);
      MembersCons(x, h, rest);
    }
  }

  /** Sorting pulls the regions apart exactly when no two clash. */
  lemma {:induction false} SortedApartIff(plan: Plan)
    ensures Apart(SortByStart(plan)) <==> NoClash(plan)
  {
    if plan != [] {
      hide Clash, ClashFree, Apart, Insert, NoClash;
      var x, rest := plan[0], plan[1..];
      SortedApartIff(rest);
      SortOrders(rest);
      InsertApartIff(x, SortByStart(rest));
      SameMembers(x, SortByStart(rest), rest);
      NoClashCons(plan);
    }
  }

  lemma NoClashCons(plan: Plan)
    requires plan != []
    ensures NoClash(plan) <==> NoClash(plan[1..]) && ClashFree(plan[0], plan[1..])
  {
    hide Clash;
    var rest := plan[1..];
    if NoClash(rest) && ClashFree(plan[0], rest) {
      forall i, j | 0 <= i < j < |plan| ensures !Clash(plan[i], plan[j]) {
        if i == 0 { assert plan[j] == rest[j - 1]; }
        else { assert plan[i] == rest[i - 1] && plan[j] == rest[j - 1]; }
      }
    }
    if NoClash(plan) {
      forall i, j | 0 <= i < j < |rest| ensures !Clash(rest[i], rest[j]) {
        assert plan[i + 1] == rest[i] && plan[j + 1] == rest[j];
      }
      forall k | 0 <= k < |rest| ensures !Clash(plan[0], rest[k]) { assert plan[k + 1] == rest[k]; }
    }
  }

  /** The regions computed are disjoint, so that the update is one splice, if and only if no region
      clashes with that of a later chunk. */
  lemma {:induction false} DisjointIffNoClash(lines: seq<string>, chunks: seq<UpdateFileChunk>)
    requires PlanChunks(lines, chunks, 0).Ok?
    ensures Disjoint(Computed(lines, chunks).value, 0, |lines|) <==> NoClash(PlanChunks(lines, chunks, 0).value)
  {
    hide Clash, Apart, Disjoint, SortByStart, PlanChunks, InBounds;
    ComputedInBounds(lines, chunks);
    DisjointIsApart(Computed(lines, chunks).value, 0, |lines|);
    SortedApartIff(PlanChunks(lines, chunks, 0).value);
  }

  /** What chunk order says of the regions: a pure addition sits at the insertion point, and a region
      that is searched for, not at the end of the file, starts no earlier than the search did. */
  predicate Anchored(lines: seq<string>, chunks: seq<UpdateFileChunk>, plan: Plan, from: nat) {
    && |plan| == |chunks|
    && forall j :: 0 <= j < |chunks| ==>
         if chunks[j].oldLines == [] then plan[j].start == InsertionPoint(lines) && plan[j].oldLen == 0
         else !chunks[j].isEndOfFile ==> from <= plan[j].start
  }

  /** Where the search for the next chunk starts. */
  function Onward(lines: seq<string>, chunks: seq<UpdateFileChunk>, from: nat): nat
    requires chunks != [] && PlanChunks(lines, chunks, from).Ok?
  {
    var at := AfterContext(lines, chunks[0], from).value;
    if chunks[0].oldLines == [] then at else End(LocateChunk(lines, chunks[0], at).value)
  }

  lemma PlanTail(lines: seq<string>, chunks: seq<UpdateFileChunk>, from: nat)
    requires from <= |lines| && chunks != [] && PlanChunks(lines, chunks, from).Ok?
    ensures var plan, next := PlanChunks(lines, chunks, from).value, Onward(lines, chunks, from);
            && from <= next <= |lines|
            && plan != [] && PlanChunks(lines, chunks[1..], next) == Ok(plan[1..])
            && (if chunks[0].oldLines == [] then plan[0].start == InsertionPoint(lines) && plan[0].oldLen == 0
                else End(plan[0]) == next && (!chunks[0].isEndOfFile ==> from <= plan[0].start))
  {
    AfterContextInBounds(lines, chunks[0], from);
    var at := AfterContext(lines, chunks[0], from).value;
    LocateInBounds(lines, chunks[0], at);
    hide AfterContext, LocateChunk, InsertionPoint;
  }

  lemma {:induction false} PlanAnchored(lines: seq<string>, chunks: seq<UpdateFileChunk>, from: nat)
    requires from <= |lines| && PlanChunks(lines, chunks, from).Ok?
    ensures Anchored(lines, chunks, PlanChunks(lines, chunks, from).value, from)
  {
    if chunks != [] {
      PlanTail(lines, chunks, from);
      PlanAnchored(lines, chunks[1..], Onward(lines, chunks, from));
      var plan := PlanChunks(lines, chunks, from).value;
      hide PlanChunks, Onward, InsertionPoint;
      assert forall j :: 0 < j < |chunks| ==> chunks[j] == chunks[1..][j - 1] && plan[j] == plan[1..][j - 1];
    }
  }

  /** Of two chunks whose regions clash, the later searches at the end of the file, or one of them is a
      pure addition in a file whose last line is blank. */
  predicate MayClash(lines: seq<string>, a: UpdateFileChunk, b: UpdateFileChunk) {
    || (b.isEndOfFile && b.oldLines != [])
    || (EndsBlank(lines) && (a.oldLines == [] || b.oldLines == []))
  }

  /** There is no other cause of a clash. */
  lemma {:induction false} ClashCauses(lines: seq<string>, chunks: seq<UpdateFileChunk>, from: nat, i: nat, j: nat)
    requires from <= |lines| && PlanChunks(lines, chunks, from).Ok? && i < j < |chunks|
    ensures var plan := PlanChunks(lines, chunks, from).value;
            |plan| == |chunks| && (Clash(plan[i], plan[j]) ==> MayClash(lines, chunks[i], chunks[j]))
  {
    hide Clash, MayClash, Anchored, InBounds, PlanChunks, Onward;
    var plan := PlanChunks(lines, chunks, from).value;
    PlanTail(lines, chunks, from);
    PlanAnchored(lines, chunks, from);
    assert |plan| == |chunks| by { AnchoredLength(lines, chunks, plan, from); }
    var next, rest := Onward(lines, chunks, from), chunks[1..];
    assert chunks[j] == rest[j - 1] && plan[j] == plan[1..][j - 1];
    if i == 0 {
      PlanAnchored(lines, rest, next);
      PlanInBounds(lines, chunks, from);
      FirstClash(lines, chunks, plan, next, j);
    } else {
      ClashCauses(lines, rest, next, i - 1, j - 1);
    }
  }

  lemma AnchoredLength(lines: seq<string>, chunks: seq<UpdateFileChunk>, plan: Plan, from: nat)
    requires Anchored(lines, chunks, plan, from)
    ensures |plan| == |chunks|
  {
  }

  lemma FirstClash(lines: seq<string>, chunks: seq<UpdateFileChunk>, plan: Plan, next: nat, j: nat)
    requires |plan| == |chunks| && 0 < j < |plan| && InBounds(plan, |lines|)
    requires Anchored(lines, chunks[1..], plan[1..], next)
    requires if chunks[0].oldLines == [] then plan[0].start == InsertionPoint(lines) && plan[0].oldLen == 0
             else End(plan[0]) == next
    ensures Clash(plan[0], plan[j]) ==> MayClash(lines, chunks[0], chunks[j])
  {
    assert chunks[j] == chunks[1..][j - 1] && plan[j] == plan[1..][j - 1];
  }

  /** So orderly chunks have disjoint regions. */
  lemma {:induction false} OrderlyPlanDisjoint(lines: seq<string>, chunks: seq<UpdateFileChunk>)
    requires Orderly(lines, chunks) && Computed(lines, chunks).Ok?
    ensures Disjoint(Computed(lines, chunks).value, 0, |lines|)
  {
    var plan := PlanChunks(lines, chunks, 0).value;
    PlanAnchored(lines, chunks, 0);
    DisjointIffNoClash(lines, chunks);
    hide PlanChunks, Clash, Disjoint;
    forall i, j | 0 <= i < j < |plan| ensures !Clash(plan[i], plan[j]) {
      ClashCauses(lines, chunks, 0, i, j);
    }
  }

  /** Without a clash the reverse in-place edits equal one left-to-right splice, whose length is
      accounted for. */
  lemma {:induction false} ClashFreeUpdateIsSplice(lines: seq<string>, chunks: seq<UpdateFileChunk>)
    requires PlanChunks(lines, chunks, 0).Ok? && NoClash(PlanChunks(lines, chunks, 0).value)
    ensures var plan := Computed(lines, chunks).value;
            && Disjoint(plan, 0, |lines|)
            && Applicable(plan, |lines|)
            && Applied(lines, plan) == Splice(lines, plan, 0)
            && |Applied(lines, plan)| == |lines| - OldTotal(plan) + NewTotal(plan)
  {
    DisjointIffNoClash(lines, chunks);
    hide PlanChunks, Disjoint;
    var plan := Computed(lines, chunks).value;
    AppliedIsSplice(lines, plan, 0);
    SpliceLength(lines, plan, 0);
  }

  /** In particular for orderly chunks. */
  lemma {:induction false} OrderlyUpdateIsSplice(lines: seq<string>, chunks: seq<UpdateFileChunk>)
    requires Orderly(lines, chunks) && Computed(lines, chunks).Ok?
    ensures var plan := Computed(lines, chunks).value;
            && Disjoint(plan, 0, |lines|)
            && Applicable(plan, |lines|)
            && Applied(lines, plan) == Splice(lines, plan, 0)
            && |Applied(lines, plan)| == |lines| - OldTotal(plan) + NewTotal(plan)
  {
    OrderlyPlanDisjoint(lines, chunks);
    DisjointIffNoClash(lines, chunks);
    ClashFreeUpdateIsSplice(lines, chunks);
  }

  /** The plan of a chunk without context, followed by more chunks. */
  lemma PlanCons(lines: seq<string>, chunk: UpdateFileChunk, rest: seq<UpdateFileChunk>, from: nat, r: Replacement)
    requires chunk.changeContext.None?
    requires if chunk.oldLines == [] then r == Replacement(InsertionPoint(lines), 0, chunk.newLines)
             else LocateChunk(lines, chunk, from) == Some(r)
    ensures PlanChunks(lines, [chunk] + rest, from)
         == Prepend(r, PlanChunks(lines, rest, if chunk.oldLines == [] then from else End(r)))
  {
    assert ([chunk] + rest)[1..] == rest;
  }

  lemma SortTwo(r1: Replacement, r2: Replacement)
    requires r1.start <= r2.start
    ensures SortByStart([r1, r2]) == [r1, r2]
  {
    assert [r1, r2][1..] == [r2] && [r2][1..] == [];
    assert SortByStart([r2]) == [r2] + SortByStart([]);
  }

  /** Without that condition regions can overlap: an end-of-file chunk ignores where the last
      chunk ended, so both of these claim line 1. */
  lemma EofChunkMayOverlap()
    ensures var lines := ["a", "b"];
            var chunks := [UpdateFileChunk(None, ["a", "b"], ["x"], false), UpdateFileChunk(None, ["b"], ["y"], true)];
            && Computed(lines, chunks) == Ok([Replacement(0, 2, ["x"]), Replacement(1, 1, ["y"])])
            && !Disjoint(Computed(lines, chunks).value, 0, 2)
            && Applied(lines, Computed(lines, chunks).value) == ["x"]
  {
    var lines := ["a", "b"];
    var chunks := [UpdateFileChunk(None, ["a", "b"], ["x"], false), UpdateFileChunk(None, ["b"], ["y"], true)];
    assert Matches(Exact, lines, ["a", "b"], 0);
    assert Seek(lines, ["a", "b"], 0, false) == Some(0);
    assert Matches(Exact, lines, ["b"], 1);
    assert Seek(lines, ["b"], 2, true) == Some(1);
    var r1, r2 := Replacement(0, 2, ["x"]), Replacement(1, 1, ["y"]);
    PlanCons(lines, chunks[1], [], 2, r2);
    PlanCons(lines, chunks[0], [chunks[1]], 0, r1);
    assert chunks == [chunks[0]] + [chunks[1]];
    SortTwo(r1, r2);
    assert [r1, r2][1..] == [r2] && [r2][1..] == [];
    assert Applied(lines, [r2]) == ["a", "y"];
  }

  /** A pure addition before a final blank line can land inside a region too. */
  lemma AdditionMayLandInsideRegion()
    ensures var lines := ["a", ""];
            var chunks := [UpdateFileChunk(None, ["a", ""], ["x"], false), UpdateFileChunk(None, [], ["y"], false)];
            && Computed(lines, chunks) == Ok([Replacement(0, 2, ["x"]), Replacement(1, 0, ["y"])])
            && !Disjoint(Computed(lines, chunks).value, 0, 2)
            && Applied(lines, Computed(lines, chunks).value) == ["x", ""]
  {
    var lines := ["a", ""];
    var chunks := [UpdateFileChunk(None, ["a", ""], ["x"], false), UpdateFileChunk(None, [], ["y"], false)];
    assert Matches(Exact, lines, ["a", ""], 0);
    assert Seek(lines, ["a", ""], 0, false) == Some(0);
    var r1, r2 := Replacement(0, 2, ["x"]), Replacement(1, 0, ["y"]);
    PlanCons(lines, chunks[1], [], 2, r2);
    PlanCons(lines, chunks[0], [chunks[1]], 0, r1);
    assert chunks == [chunks[0]] + [chunks[1]];
    SortTwo(r1, r2);
    assert [r1, r2][1..] == [r2] && [r2][1..] == [];
    assert Applied(lines, [r2]) == ["a", "y", ""];
  }

  // ---------------------------------------------------------------- the imperative form

  /** Search for the old lines of one chunk, with the retry that forgives a final empty line. */
  method FindOldLines(lines: seq<string>, chunk: UpdateFileChunk, from: nat) returns (r: Option<Replacement>)
    requires chunk.oldLines != []
    ensures r == LocateChunk(lines, chunk, from)
  {
    hide Seek;
    var pattern, newSlice := chunk.oldLines, chunk.newLines;
    var found := SeekSequence.SeekSequence(lines, pattern, from, chunk.isEndOfFile);
    if found.None? && EndsBlank(pattern) {
      pattern := pattern[..|pattern| - 1];
      if EndsBlank(newSlice) {
        newSlice := newSlice[..|newSlice| - 1];
      }
      found := SeekSequence.SeekSequence(lines, pattern, from, chunk.isEndOfFile);
    }
    r := if found.Some? then Some(Replacement(found.value, |pattern|, newSlice)) else None;
  }

  function Onto(done: Plan, tail: Result<Plan, ReplacementError>): Result<Plan, ReplacementError> {
    if tail.Ok? then Ok(done + tail.value) else tail
  }

  lemma OntoSnoc(done: Plan, r: Replacement, tail: Result<Plan, ReplacementError>)
    ensures Onto(done, Prepend(r, tail)) == Onto(done + [r], tail)
    ensures Onto([], tail) == tail
  {
    if tail.Ok? {
      assert done + ([r] + tail.value) == done + [r] + tail.value;
      assert [] + tail.value == tail.value;
    }
  }

  method ComputeReplacements(lines: seq<string>, chunks: seq<UpdateFileChunk>)
    returns (r: Result<Plan, ReplacementError>)
    ensures r == Computed(lines, chunks)
    ensures r.Ok? ==> Applicable(r.value, |lines|) && InBounds(r.value, |lines|)
  {
    hide Seek, LocateChunk;
    ComputedInBounds(lines, chunks);
    var plan: Plan := [];
    var lineIndex: nat := 0;
    var i := 0;
    assert chunks[0..] == chunks;
    OntoSnoc([], Replacement(0, 0, []), PlanChunks(lines, chunks, 0));
    while i < |chunks|
      invariant 0 <= i <= |chunks|
      invariant PlanChunks(lines, chunks, 0) == Onto(plan, PlanChunks(lines, chunks[i..], lineIndex))
    {
      var chunk := chunks[i];
      assert chunks[i..][0] == chunk && chunks[i..][1..] == chunks[i + 1..];
      if chunk.changeContext.Some? {
        var at := SeekSequence.SeekSequence(lines, [chunk.changeContext.value], lineIndex, false);
        if at.None? {
          return Err(ContextNotFound(chunk.changeContext.value));
        }
        lineIndex := at.value + 1;
      }
      if chunk.oldLines == [] {
        OntoSnoc(plan, Replacement(InsertionPoint(lines), 0, chunk.newLines), PlanChunks(lines, chunks[i + 1..], lineIndex));
        plan := plan + [Replacement(InsertionPoint(lines), 0, chunk.newLines)];
      } else {
        var region := FindOldLines(lines, chunk, lineIndex);
        if region.None? {
          return Err(LinesNotFound(chunk.oldLines));
        }
        OntoSnoc(plan, region.value, PlanChunks(lines, chunks[i + 1..], End(region.value)));
        plan := plan + [region.value];
        lineIndex := End(region.value);
      }
      i := i + 1;
    }
    assert plan + [] == plan;
    r := Ok(SortByStart(plan));
  }

  /** The remove loop: `count` times, drop the line at `start` if there is one. */
  method RemoveLines(original: seq<string>, start: nat, count: nat) returns (lines: seq<string>)
    requires start <= |original|
    ensures lines == original[..start] + if start + count <= |original| then original[start + count..] else []
  {
    lines := original;
    for removed := 0 to count
      invariant lines == original[..start] + if start + removed <= |original| then original[start + removed..] else []
    {
      if start < |lines| {
        lines := lines[..start] + lines[start + 1..];
      }
    }
  }

  /** The insert loop: every insertion index is within the current length. */
  method InsertLines(original: seq<string>, start: nat, newLines: seq<string>) returns (lines: seq<string>)
    requires start <= |original|
    ensures lines == original[..start] + newLines + original[start..]
  {
    lines := original;
    for offset := 0 to |newLines|
      invariant lines == original[..start] + newLines[..offset] + original[start..]
    {
      lines := lines[..start + offset] + [newLines[offset]] + lines[start + offset..];
    }
  }

  /** Last replacement first, so that earlier positions stay meaningful. */
  method ApplyReplacements(original: seq<string>, plan: Plan) returns (lines: seq<string>)
    requires Applicable(plan, |original|)
    ensures lines == Applied(original, plan)
  {
    lines := original;
    var k := |plan|;
    while k > 0
      invariant 0 <= k <= |plan|
      invariant lines == Applied(original, plan[k..])
    {
      k := k - 1;
      ghost var rest := plan[k..];
      assert rest[0] == plan[k] && rest[1..] == plan[k + 1..];
      ghost var before := lines;
      lines := RemoveLines(lines, plan[k].start, plan[k].oldLen);
      lines := InsertLines(lines, plan[k].start, plan[k].newLines);
      assert lines == ReplaceAt(before, plan[k]);
    }
    assert plan[0..] == plan;
  }
}
