/** The whole path from the text of a patch to the files it leaves. */
module ApplyPatch {
  import opened Basics
  import opened PatchSyntax
  import opened PatchText
  import opened PatchDocument
  import opened PatchRoundTrip
  import opened PatchedFiles
  import opened FileSystem
  import opened PatchApplier
  import opened DryRun

  /** `apply_patch`: text that does not parse touches nothing and commits nothing. */
  method ApplyPatchText(fs: FileSystem, patch: string, resolve: Resolver) returns (ok: bool, delta: AppliedPatchDelta, ghost phantom: bool)
    modifies fs
    ensures fresh(delta)
    ensures old(fs.faults) <= fs.faults
    ensures var parsed := Parsed(patch, Lenient);
            if parsed.Err? then !ok && !phantom && delta.exact && delta.changes == [] && fs.nodes == old(fs.nodes)
            else
              && (delta.exact ==> Undo(fs.Contents(), delta.changes) == old(fs.Contents()))
              && (delta.exact ==> (Replay(old(fs.Contents()), delta.changes) == fs.Contents() <==> !phantom))
              && (phantom ==> !ok && exists i :: 0 <= i < |parsed.value.hunks| && SelfMove(parsed.value.hunks[i], resolve))
              && (AllPlain(old(fs.nodes), AllTouched(parsed.value.hunks, resolve)) ==>
                    SameExcept(old(fs.Contents()), fs.Contents(), AllTouched(parsed.value.hunks, resolve)))
              && (AllPlain(old(fs.nodes), AllTouched(parsed.value.hunks, resolve)) && fs.faults == old(fs.faults) ==>
                    && (fs.Contents(), ok || parsed.value.hunks == []) == PatchEffect(old(fs.Contents()), parsed.value.hunks, resolve)
                    && (ok && TextOrNone(old(fs.Contents()), AllTouched(parsed.value.hunks, resolve)) ==> delta.exact))
  {
    hide *;
    delta := new AppliedPatchDelta();
    phantom := false;
    var parsed := ParsePatchText(patch, Lenient);
    if parsed.Err? {
      return false, delta, phantom;
    }
    var affected;
    affected, phantom := ApplyHunksToFiles(fs, delta, parsed.value.hunks, resolve);
    ok := affected.Ok?;
  }

  /** Written, parsed and applied: for hunks that survive the writing, over distinct paths, that verify
      against the files, applying the text of the patch without a failing call leaves exactly the files that
      verification predicted. */
  lemma {:induction false} WrittenPatchDoesWhatItSays(files: Files, hunks: seq<Hunk>, environmentId: Option<string>, resolve: Resolver)
    requires AllWellFormed(hunks) && NoStoredCR(hunks) && IdOk(environmentId)
    requires Distinct(hunks, resolve) && Verified(files, hunks, resolve, map[]).Ok?
    ensures var parsed := Parsed(WritePatch(hunks, environmentId), Lenient);
            && parsed.Ok?
            && var (after, ok) := PatchEffect(files, parsed.value.hunks, resolve);
               ok && Predicts(files, Verified(files, hunks, resolve, map[]).value, after)
  {
    hide *;
    ParseUndoesWritePatch(hunks, environmentId, Lenient);
    DryRunAgrees(files, hunks, resolve);
  }
}
