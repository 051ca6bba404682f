/** `spawn_process_output`: one output stream of a command, cut off at a byte cap. */
module OutputPump {
  import opened Wrappers

  type Byte = bv8
  datatype Delta = Delta(bytes: seq<Byte>, capReached: bool)

  function Flatten(chunks: seq<seq<Byte>>): seq<Byte> {
    if |chunks| == 0 then [] else Flatten(chunks[..|chunks| - 1]) + chunks[|chunks| - 1]
  }

  function Emitted(deltas: seq<Delta>): seq<Byte> {
    if |deltas| == 0 then [] else Emitted(deltas[..|deltas| - 1]) + deltas[|deltas| - 1].bytes
  }

  /** The first `cap` bytes, or all of them. */
  function Capped(bytes: seq<Byte>, cap: Option<nat>): seq<Byte> {
    match cap case Some(c) => if |bytes| > c then bytes[..c] else bytes case None => bytes
  }

  function Min(a: nat, b: nat): nat {
    if a < b then a else b
  }

  lemma {:induction false} FlattenPrefix(chunks: seq<seq<Byte>>, n: nat)
    requires n <= |chunks|
    ensures Flatten(chunks[..n]) <= Flatten(chunks)
    decreases |chunks| - n
  {
    if n < |chunks| {
      assert chunks[..n + 1][..n] == chunks[..n];
      FlattenPrefix(chunks, n + 1);
    } else {
      assert chunks[..n] == chunks;
    }
  }

  /** What is left of a chunk under the cap, after `observed` bytes. */
  function Trimmed(chunk: seq<Byte>, cap: Option<nat>, observed: nat): seq<Byte> {
    match cap
    case Some(c) => chunk[..Min(if c > observed then c - observed else 0, |chunk|)]
    case None => chunk
  }

  lemma TrimmedIsCapped(before: seq<Byte>, chunk: seq<Byte>, cap: Option<nat>)
    requires cap.Some? ==> |before| <= cap.value
    ensures before + Trimmed(chunk, cap, |before|) == Capped(before + chunk, cap)
    ensures cap.None? || |before| + |Trimmed(chunk, cap, |before|)| < cap.value ==>
      Trimmed(chunk, cap, |before|) == chunk
  {
  }

  lemma EmittedPush(deltas: seq<Delta>, d: Delta)
    ensures Emitted(deltas + [d]) == Emitted(deltas) + d.bytes
  {
    assert (deltas + [d])[..|deltas|] == deltas;
  }

  lemma FlattenNext(chunks: seq<seq<Byte>>, n: nat)
    requires n < |chunks|
    ensures Flatten(chunks[..n + 1]) == Flatten(chunks[..n]) + chunks[n]
  {
    assert chunks[..n + 1][..n] == chunks[..n];
  }

  /** Once the cap is full, later chunks change nothing. */
  lemma CapIsFull(chunks: seq<seq<Byte>>, n: nat, cap: nat)
    requires n <= |chunks| && cap <= |Flatten(chunks[..n])|
    ensures Capped(Flatten(chunks), Some(cap)) == Capped(Flatten(chunks[..n]), Some(cap))
    ensures cap <= |Flatten(chunks)|
  {
    FlattenPrefix(chunks, n);
  }

  /** The pump over the chunks received before it stops, whether the stream ended or the drain timed
      out. It emits the first `cap` bytes of them, however they were cut into chunks; when streaming,
      only the last notification says the cap was reached, and says so exactly when it was. */
  method PumpOutput(chunks: seq<seq<Byte>>, cap: Option<nat>, streamOutput: bool, hasProcessId: bool)
    returns (deltas: seq<Delta>, buffer: seq<Byte>)
    ensures streamOutput && hasProcessId ==> Emitted(deltas) == Capped(Flatten(chunks), cap) && buffer == []
    ensures !streamOutput ==> buffer == Capped(Flatten(chunks), cap) && deltas == []
    ensures forall i :: 0 <= i < |deltas| - 1 ==> !deltas[i].capReached
    ensures streamOutput && hasProcessId ==>
      (|deltas| > 0 <==> |chunks| > 0)
      && (|deltas| > 0 ==> (deltas[|deltas| - 1].capReached <==> cap.Some? && |Flatten(chunks)| >= cap.value))
  {
    deltas, buffer := [], [];
    var observed := 0;
    ghost var seen: seq<Byte> := [];
    for n := 0 to |chunks|
      invariant seen == Flatten(chunks[..n])
      invariant cap.Some? ==> observed == |seen| && (n > 0 ==> observed < cap.value)
      invariant streamOutput && hasProcessId ==> Emitted(deltas) == seen && |deltas| == n && buffer == []
      invariant !streamOutput ==> buffer == seen && deltas == []
      invariant streamOutput && !hasProcessId ==> deltas == [] && buffer == []
      invariant forall i :: 0 <= i < |deltas| ==> !deltas[i].capReached
    {
      var chunk := chunks[n];
      FlattenNext(chunks, n);
      TrimmedIsCapped(seen, chunk, cap);
      seen := seen + chunk;
      var capped := chunk;
      if cap.Some? {
        capped := Trimmed(chunk, cap, observed);
        observed := observed + |capped|;
      }
      var capReached := cap.Some? && observed == cap.value;
      if streamOutput && hasProcessId {
        EmittedPush(deltas, Delta(capped, capReached));
        deltas := deltas + [Delta(capped, capReached)];
      } else if !streamOutput {
        buffer := buffer + capped;
      }
      if capReached {
        CapIsFull(chunks, n + 1, cap.value);
        return;
      }
    }
    assert chunks[..|chunks|] == chunks;
  }
}
