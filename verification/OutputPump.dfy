/** The pump that turns a process's output chunks into capped notifications or a capped buffer. */
module OutputPump {
  import opened Basics

  type Bytes = seq<bv8>

  const OUTPUT_CHUNK_SIZE_HINT := 64 * 1024

  datatype OutputDelta = OutputDelta(bytes: Bytes, capReached: bool)

  function Flatten(chunks: seq<Bytes>): Bytes {
    if chunks == [] then [] else Flatten(chunks[..|chunks| - 1]) + chunks[|chunks| - 1]
  }

  function BytesOf(deltas: seq<OutputDelta>): Bytes {
    if deltas == [] then [] else BytesOf(deltas[..|deltas| - 1]) + deltas[|deltas| - 1].bytes
  }

  /** The first `cap` bytes, or all of them. */
  function Capped(bytes: Bytes, cap: Option<nat>): Bytes {
    if cap.Some? && cap.value < |bytes| then bytes[..cap.value] else bytes
  }

  lemma FlattenSnoc(chunks: seq<Bytes>, i: nat)
    requires i < |chunks|
    ensures Flatten(chunks[..i + 1]) == Flatten(chunks[..i]) + chunks[i]
  {
    assert chunks[..i + 1][..i] == chunks[..i];
  }

  lemma BytesOfSnoc(deltas: seq<OutputDelta>, d: OutputDelta)
    ensures BytesOf(deltas + [d]) == BytesOf(deltas) + d.bytes
  {
    assert (deltas + [d])[..|deltas|] == deltas;
  }

  /** Taking the first `cap` bytes piece by piece: each piece gets what the earlier ones left. */
  lemma CappedSnoc(before: Bytes, piece: Bytes, cap: nat)
    requires |before| < cap || before == []
    ensures var room := if |before| <= cap then cap - |before| else 0;
            var n := if room < |piece| then room else |piece|;
            Capped(before + piece, Some(cap)) == before + piece[..n]
  {
  }

  /** Merge what is already waiting into the chunk, no further than the size hint and no less: each
      chunk added found room below the hint, and the merge stops for want of room or of chunks. */
  method Coalesce(chunks: seq<Bytes>, first: nat, ready: nat -> bool) returns (chunk: Bytes, next: nat)
    requires first < |chunks|
    ensures first < next <= |chunks|
    ensures Flatten(chunks[..next]) == Flatten(chunks[..first]) + chunk
    ensures forall k :: first < k < next ==>
              ready(k) && |Flatten(chunks[..k])| < |Flatten(chunks[..first])| + OUTPUT_CHUNK_SIZE_HINT
    ensures |chunk| >= OUTPUT_CHUNK_SIZE_HINT || next == |chunks| || !ready(next)
  {
    chunk, next := chunks[first], first + 1;
    FlattenSnoc(chunks, first);
    while |chunk| < OUTPUT_CHUNK_SIZE_HINT && next < |chunks| && ready(next)
      invariant first < next <= |chunks|
      invariant Flatten(chunks[..next]) == Flatten(chunks[..first]) + chunk
      invariant forall k :: first < k < next ==>
                  ready(k) && |Flatten(chunks[..k])| < |Flatten(chunks[..first])| + OUTPUT_CHUNK_SIZE_HINT
    {
      FlattenSnoc(chunks, next);
      assert Flatten(chunks[..first]) + chunk + chunks[next] == Flatten(chunks[..first]) + (chunk + chunks[next]);
      chunk := chunk + chunks[next];
      next := next + 1;
    }
  }

  /** The output task over the chunks a process writes. `ready` says which chunks are already there
      when the pump tries to coalesce, `timedOut` whether the drain timeout fires before a chunk is
      taken; `taken` chunks are received. Whatever these are, exactly the first `cap` bytes received
      are passed on, once and in order, and only the last notification can say the cap is reached,
      which it does exactly when `cap` bytes are out. */
  method PumpOutput(chunks: seq<Bytes>, ready: nat -> bool, timedOut: nat -> bool,
                    streamOutput: bool, processId: Option<string>, cap: Option<nat>)
    returns (buffer: Bytes, deltas: seq<OutputDelta>, taken: nat)
    ensures taken <= |chunks|
    ensures taken < |chunks| ==> timedOut(taken) || (cap.Some? && cap.value <= |Flatten(chunks[..taken])|)
    ensures streamOutput && processId.Some? ==> buffer == [] && BytesOf(deltas) == Capped(Flatten(chunks[..taken]), cap)
    ensures !streamOutput ==> deltas == [] && buffer == Capped(Flatten(chunks[..taken]), cap)
    ensures streamOutput && processId.None? ==> deltas == [] && buffer == []
    ensures forall i :: 0 <= i < |deltas| - 1 ==> !deltas[i].capReached
    ensures deltas != [] ==> (deltas[|deltas| - 1].capReached <==> cap == Some(|BytesOf(deltas)|))
  {
    buffer, deltas, taken := [], [], 0;
    var observed := 0;
    ghost var out: Bytes := [];
    while taken < |chunks| && !timedOut(taken)
      invariant taken <= |chunks|
      invariant out == Flatten(chunks[..taken])
      invariant cap.Some? ==> observed == |out| && (observed < cap.value || taken == 0)
      invariant streamOutput && processId.Some? ==> buffer == [] && BytesOf(deltas) == out
      invariant !streamOutput ==> deltas == [] && buffer == out
      invariant streamOutput && processId.None? ==> deltas == [] && buffer == []
      invariant forall i :: 0 <= i < |deltas| ==> !deltas[i].capReached
      invariant taken == 0 ==> deltas == []
      decreases |chunks| - taken
    {
      var chunk, next := Coalesce(chunks, taken, ready);
      var piece := chunk;
      if cap.Some? {
        var room := if observed <= cap.value then cap.value - observed else 0;
        var length := if room < |chunk| then room else |chunk|;
        CappedSnoc(out, chunk, cap.value);
        observed := observed + length;
        piece := chunk[..length];
      }
      taken := next;
      out := out + piece;
      assert out == Capped(Flatten(chunks[..taken]), cap);
      var capReached := cap == Some(observed);
      if streamOutput && processId.Some? {
        var delta := OutputDelta(piece, capReached);
        BytesOfSnoc(deltas, delta);
        deltas := deltas + [delta];
      } else if !streamOutput {
        buffer := buffer + piece;
      }
      if capReached {
        break;
      }
    }
  }
}
