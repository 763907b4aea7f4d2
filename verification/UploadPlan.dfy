/**
 Splitting a declared size into upload parts. The chunk grows rather than the part
 count, so a plan never exceeds what an object store accepts in one upload.
 */
module UploadPlan {
  import opened Results

  const MAX_UPLOAD_PARTS := 1000
  const MAX_SAFE_INTEGER := 0x1f_ffff_ffff_ffff

  datatype Part = Part(number: nat, offset: nat, length: nat) {
    predicate Holds(byte: int) {
      offset <= byte < offset + length
    }
  }

  datatype Refusal = NoBytes | BeyondService | BeyondOneRequest

  datatype Mode = Multipart | WholeObject(maxObjectBytes: int)

  /** Numbered from one, non-empty, and each starting where the one before it ends. */
  ghost predicate Consecutive(parts: seq<Part>) {
    && (forall i :: 0 <= i < |parts| ==> parts[i].number == i + 1 && parts[i].length > 0)
    && (forall i :: 0 < i < |parts| ==> parts[i].offset == parts[i - 1].offset + parts[i - 1].length)
    && (parts != [] ==> parts[0].offset == 0)
  }

  function End(parts: seq<Part>): nat {
    if parts == [] then 0 else parts[|parts| - 1].offset + parts[|parts| - 1].length
  }

  /** Full chunks, but for what is left at the end. */
  ghost predicate Chunked(parts: seq<Part>, chunk: nat) {
    forall i :: 0 <= i < |parts| ==> parts[i].length <= chunk && (i < |parts| - 1 ==> parts[i].length == chunk)
  }

  lemma {:induction false} PartBefore(parts: seq<Part>, i: nat, j: nat)
    requires Consecutive(parts) && i < j < |parts|
    ensures parts[i].offset + parts[i].length <= parts[j].offset
    decreases j - i
  {
    if i + 1 < j {
      PartBefore(parts, i + 1, j);
    }
  }

  lemma {:induction false} FindPart(parts: seq<Part>, byte: nat) returns (i: nat)
    requires Consecutive(parts) && byte < End(parts)
    ensures i < |parts| && parts[i].Holds(byte)
  {
    var n := |parts| - 1;
    if parts[n].offset <= byte {
      i := n;
    } else {
      assert n > 0;
      i := FindPart(parts[..n], byte);
    }
  }

  /** The parts tile the object: a byte below the end lies in exactly one part, any other in none. */
  lemma TilesExactly(parts: seq<Part>, byte: int)
    requires Consecutive(parts)
    ensures (exists i :: 0 <= i < |parts| && parts[i].Holds(byte)) <==> 0 <= byte < End(parts)
    ensures forall i, j :: 0 <= i < j < |parts| ==> !(parts[i].Holds(byte) && parts[j].Holds(byte))
  {
    forall i, j | 0 <= i < j < |parts| ensures parts[i].offset + parts[i].length <= parts[j].offset {
      PartBefore(parts, i, j);
    }
    if 0 <= byte < End(parts) {
      var i := FindPart(parts, byte);
    }
  }

  /** No smaller chunk, from the preferred size up, fits the size into a thousand parts. */
  ghost predicate LeastChunk(total: int, preferred: nat, chunk: nat) {
    && preferred <= chunk && total <= chunk * 1000
    && forall c: nat :: preferred <= c && total <= c * 1000 ==> chunk <= c
  }

  /** The smallest chunk, no smaller than preferred, that fits the size into the allowed number of parts. */
  function ChunkSizeFor(total: int, preferred: nat): (chunk: Option<nat>)
    requires preferred > 0
    ensures chunk.None? <==> total > preferred * 1000 && total > 9_007_199_254_740_991 * 1000
    ensures chunk.Some? ==> LeastChunk(total, preferred, chunk.value)
  {
    if total <= preferred * MAX_UPLOAD_PARTS then Some(preferred)
    else
      var required := (total + MAX_UPLOAD_PARTS - 1) / MAX_UPLOAD_PARTS;
      if required > MAX_SAFE_INTEGER then None else Some(required)
  }

  /** Multipart plans tile the size chunk by chunk; a whole-object plan is one part, refused past its ceiling. */
  method PlanUploadParts(total: nat, chunk: nat, mode: Mode) returns (plan: Result<seq<Part>, Refusal>)
    requires total > 0 && chunk > 0
    ensures plan.Err? <==> mode.WholeObject? && total > mode.maxObjectBytes
    ensures plan.Err? ==> plan.error.BeyondOneRequest?
    ensures plan.Ok? ==> Consecutive(plan.value) && End(plan.value) == total
    ensures plan.Ok? && mode.Multipart? ==> Chunked(plan.value, chunk)
    ensures plan.Ok? && mode.WholeObject? ==> |plan.value| == 1
  {
    if mode.WholeObject? {
      if total > mode.maxObjectBytes {
        return Err(BeyondOneRequest);
      }
      return Ok([Part(1, 0, total)]);
    }
    var parts: seq<Part> := [];
    var offset, partNumber := 0, 1;
    while offset < total
      invariant partNumber == |parts| + 1 && offset == End(parts) <= total
      invariant Consecutive(parts) && Chunked(parts, chunk)
      invariant offset < total ==> forall i :: 0 <= i < |parts| ==> parts[i].length == chunk
      decreases total - offset
    {
      var length := if total - offset < chunk then total - offset else chunk;
      parts := parts + [Part(partNumber, offset, length)];
      offset := offset + length;
      partNumber := partNumber + 1;
    }
    return Ok(parts);
  }

  lemma {:induction false} OffsetAt(parts: seq<Part>, chunk: nat, i: nat)
    requires Consecutive(parts) && Chunked(parts, chunk) && i < |parts|
    ensures parts[i].offset == i * chunk
  {
    if i > 0 {
      OffsetAt(parts, chunk, i - 1);
    }
  }

  /** What beginning an upload plans: at most a thousand parts, however large the object. */
  method PlanUpload(total: int, preferred: nat, mode: Mode) returns (plan: Result<seq<Part>, Refusal>)
    requires preferred > 0
    ensures plan == Err(NoBytes) <==> total <= 0
    ensures plan == Err(BeyondService) <==>
              total > preferred * 1000 && total > 9_007_199_254_740_991 * 1000
    ensures plan.Err? ==> total <= 0 || plan.error.BeyondService? || (mode.WholeObject? && total > mode.maxObjectBytes)
    ensures plan.Ok? ==> Consecutive(plan.value) && End(plan.value) == total && 1 <= |plan.value| <= 1000
    ensures plan.Ok? && mode.WholeObject? ==> |plan.value| == 1 && total <= mode.maxObjectBytes
    ensures plan.Ok? && mode.Multipart? ==>
              exists chunk :: LeastChunk(total, preferred, chunk) && Chunked(plan.value, chunk)
  {
    if total <= 0 {
      return Err(NoBytes);
    }
    var chunk := ChunkSizeFor(total, preferred);
    if chunk.None? {
      return Err(BeyondService);
    }
    plan := PlanUploadParts(total, chunk.value, mode);
    if plan.Ok? && mode.Multipart? {
      FewParts(plan.value, chunk.value);
    }
  }

  lemma FewParts(parts: seq<Part>, chunk: nat)
    requires Consecutive(parts) && Chunked(parts, chunk) && End(parts) <= chunk * MAX_UPLOAD_PARTS
    ensures |parts| <= MAX_UPLOAD_PARTS
  {
    if parts != [] {
      var n := |parts| - 1;
      OffsetAt(parts, chunk, n);
      assert n * chunk < MAX_UPLOAD_PARTS * chunk;
    }
  }
}
