/** The chunk splitter (ai-device-kernel/src/chunk_planner.rs): plans cut into pieces of at most
    four steps, the last one ending in an observation. */
module ChunkPlanner {
  import opened Bytes
  import opened Frames
  import opened Actions

  const MAX_CHUNK_SIZE := 4
  const U32_COUNT := 0x1_0000_0000

  /** Predicates are opaque to the splitter and stand here as numbers. */
  datatype PlanStep = PlanStep(
    id: u64, action: Action, waitBefore: Option<nat>, verifyAfter: Option<nat>, note: Option<string>)

  datatype Chunk = Chunk(index: u32, total: u32, steps: seq<PlanStep>)

  datatype ChunkError = TooLarge(count: nat, max: nat) | MissingObserve | EmptyChunk

  const APPENDED_OBSERVE := PlanStep(0, DumpObservation([], 100), None, None, None)

  predicate IsObserve(s: PlanStep) {
    s.action.DumpObservation?
  }

  /** None means the chunk is valid. */
  function ValidateChunk(steps: seq<PlanStep>): Option<ChunkError> {
    if steps == [] then Some(EmptyChunk)
    else if |steps| > MAX_CHUNK_SIZE then Some(TooLarge(|steps|, MAX_CHUNK_SIZE))
    else if !IsObserve(steps[|steps| - 1]) then Some(MissingObserve)
    else None
  }

  // Specification ------------------------------------------------------------------------

  function Sizes(total: nat): seq<nat> {
    if total == 0 then [] else [Min(total, MAX_CHUNK_SIZE)] + Sizes(total - Min(total, MAX_CHUNK_SIZE))
  }

  /** The steps with an observation at the end; an empty plan stays empty. */
  function EndingInObserve(steps: seq<PlanStep>): seq<PlanStep> {
    if steps == [] || IsObserve(steps[|steps| - 1]) then steps else steps + [APPENDED_OBSERVE]
  }

  function Cut(steps: seq<PlanStep>): seq<seq<PlanStep>>
    decreases |steps|
  {
    if steps == [] then []
    else [steps[..Min(|steps|, MAX_CHUNK_SIZE)]] + Cut(steps[Min(|steps|, MAX_CHUNK_SIZE)..])
  }

  /** `as u32` keeps the low 32 bits. */
  function Low32(n: nat): u32 {
    n % U32_COUNT
  }

  function SplitSteps(steps: seq<PlanStep>): seq<Chunk> {
    var pieces := Cut(EndingInObserve(steps));
    seq(|pieces|, k requires 0 <= k < |pieces| => Chunk(Low32(k), Low32(|pieces|), pieces[k]))
  }

  function Flatten(chunks: seq<Chunk>): seq<PlanStep> {
    if chunks == [] then [] else chunks[0].steps + Flatten(chunks[1..])
  }

  // Methods ------------------------------------------------------------------------------

  method PlanChunkSize(totalAtomics: nat) returns (chunks: seq<nat>)
    ensures chunks == Sizes(totalAtomics)
  {
    if totalAtomics == 0 { return []; }
    chunks := [];
    var remaining: nat := totalAtomics;
    while remaining > 0
      invariant chunks + Sizes(remaining) == Sizes(totalAtomics)
    {
      var take := Min(remaining, MAX_CHUNK_SIZE);
      assert chunks + ([take] + Sizes(remaining - take)) == chunks + [take] + Sizes(remaining - take);
      chunks := chunks + [take];
      remaining := remaining - take;
    }
  }

  method SplitIntoChunks(planSteps: seq<PlanStep>) returns (chunks: seq<Chunk>)
    ensures chunks == SplitSteps(planSteps)
  {
    hide Cut, Sizes;
    NoPieces();
    if planSteps == [] { return []; }
    var steps := planSteps;
    if !IsObserve(steps[|steps| - 1]) {
      steps := steps + [APPENDED_OBSERVE];
    }
    var sizes := PlanChunkSize(|steps|);
    ghost var pieces := Cut(steps);
    SizesAreThePieces(steps);
    var total := Low32(|sizes|);
    chunks := [];
    var offset: nat := 0;
    for i := 0 to |sizes|
      invariant offset <= |steps| && Cut(steps[offset..]) == pieces[i..]
      invariant |chunks| == i
      invariant forall k :: 0 <= k < i ==> chunks[k] == Chunk(Low32(k), total, pieces[k])
    {
      var n := sizes[i];
      NextPiece(steps, offset, pieces, i);
      chunks := chunks + [Chunk(Low32(i), total, steps[offset..offset + n])];
      offset := offset + n;
    }
  }

  lemma NoPieces()
    ensures Cut([]) == []
  {
  }

  lemma NextPiece(steps: seq<PlanStep>, offset: nat, pieces: seq<seq<PlanStep>>, i: nat)
    requires offset <= |steps| && i < |pieces| && Cut(steps[offset..]) == pieces[i..]
    ensures var n := |pieces[i]|;
            && offset + n <= |steps| && pieces[i] == steps[offset..offset + n]
            && Cut(steps[offset + n..]) == pieces[i + 1..]
  {
    var rest := steps[offset..];
    var n := Min(|rest|, MAX_CHUNK_SIZE);
    assert pieces[i..][0] == pieces[i] && pieces[i..][1..] == pieces[i + 1..];
    assert rest[..n] == steps[offset..offset + n] && rest[n..] == steps[offset + n..];
  }

  lemma {:induction false} SizesAreThePieces(steps: seq<PlanStep>)
    ensures |Sizes(|steps|)| == |Cut(steps)|
    ensures forall k :: 0 <= k < |Cut(steps)| ==> Sizes(|steps|)[k] == |Cut(steps)[k]|
    decreases |steps|
  {
    if steps != [] {
      var n := Min(|steps|, MAX_CHUNK_SIZE);
      SizesAreThePieces(steps[n..]);
    }
  }

  // Laws ---------------------------------------------------------------------------------

  function Sum(ns: seq<nat>): nat {
    if ns == [] then 0 else ns[0] + Sum(ns[1..])
  }

  /** The sizes add up to the total; all are four but the last, which is one to four. */
  lemma {:induction false} SizesConserve(total: nat)
    ensures var ns := Sizes(total);
            && Sum(ns) == total && |ns| == (total + 3) / 4
            && (forall k :: 0 <= k < |ns| - 1 ==> ns[k] == 4)
            && (ns != [] ==> 1 <= ns[|ns| - 1] <= 4)
  {
    if total > 0 {
      var n := Min(total, MAX_CHUNK_SIZE);
      SizesConserve(total - n);
      assert Sizes(total)[1..] == Sizes(total - n);
    }
  }

  lemma {:induction false} PiecesConserve(steps: seq<PlanStep>, chunks: seq<Chunk>)
    requires |chunks| == |Cut(steps)| && forall k :: 0 <= k < |chunks| ==> chunks[k].steps == Cut(steps)[k]
    ensures Flatten(chunks) == steps
    decreases |steps|
  {
    if steps != [] {
      var n := Min(|steps|, MAX_CHUNK_SIZE);
      PiecesConserve(steps[n..], chunks[1..]);
      assert steps == steps[..n] + steps[n..];
    }
  }

  lemma SliceOfRest(steps: seq<PlanStep>, n: nat, i: nat, j: nat)
    requires i <= j && n + j <= |steps|
    ensures steps[n..][i..j] == steps[n + i..n + j]
  {
  }

  /** Piece `k` is steps 4k to 4k+3, cut off at the end. */
  lemma {:induction false} PieceAt(steps: seq<PlanStep>, k: nat)
    requires k < |Cut(steps)|
    ensures 4 * k < |steps| && Cut(steps)[k] == steps[4 * k..Min(|steps|, 4 * k + 4)]
    ensures k == |Cut(steps)| - 1 <==> |steps| <= 4 * k + 4
    decreases k
  {
    var n := Min(|steps|, MAX_CHUNK_SIZE);
    if k > 0 {
      var rest := steps[n..];
      PieceAt(rest, k - 1);
      assert Cut(steps)[k] == Cut(rest)[k - 1];
      SliceOfRest(steps, 4, 4 * (k - 1), Min(|rest|, 4 * k));
    }
  }

  /** A chunk is valid exactly with one to four steps of which the last observes. */
  lemma ValidChunkIff(steps: seq<PlanStep>)
    ensures ValidateChunk(steps) == None <==> 1 <= |steps| <= 4 && steps[|steps| - 1].action.DumpObservation?
    ensures ValidateChunk(steps) == Some(EmptyChunk) <==> steps == []
    ensures |steps| > 4 <==> ValidateChunk(steps) == Some(TooLarge(|steps|, 4))
  {
  }

  /** For every plan: the chunks in order are the steps, plus one appended observation exactly when
      the plan is not empty and does not end in one; every chunk but the last has four steps, the
      last has one to four and is valid. Indices and totals are 32-bit: chunk `k` is numbered `k`,
      and the total is the number of chunks, if and only if they fit. */
  lemma SplittingConserves(steps: seq<PlanStep>)
    ensures var chunks := SplitSteps(steps);
            var n := |chunks|;
            && Flatten(chunks) == EndingInObserve(steps)
            && (chunks == [] <==> steps == [])
            && (forall k :: 0 <= k < n - 1 ==> |chunks[k].steps| == MAX_CHUNK_SIZE)
            && (n > 0 ==> 1 <= |chunks[n - 1].steps| <= 4 && ValidateChunk(chunks[n - 1].steps) == None)
            && (forall k :: 0 <= k < n ==> (chunks[k].index == k <==> k < U32_COUNT))
            && (forall k :: 0 <= k < n ==> (chunks[k].total == n <==> n < U32_COUNT))
  {
    hide Cut, ValidateChunk;
    var all := EndingInObserve(steps);
    var chunks := SplitSteps(steps);
    PiecesConserve(all, chunks);
    forall k | 0 <= k < |chunks| - 1
      ensures |chunks[k].steps| == MAX_CHUNK_SIZE
    {
      PieceAt(all, k);
    }
    if chunks != [] {
      LastPieceIsValid(steps);
    } else {
      CutIsEmptyIff(all);
    }
  }

  lemma CutIsEmptyIff(steps: seq<PlanStep>)
    ensures Cut(steps) == [] <==> steps == []
  {
  }

  lemma LastPieceIsValid(steps: seq<PlanStep>)
    requires SplitSteps(steps) != []
    ensures var chunks := SplitSteps(steps);
            var last := chunks[|chunks| - 1].steps;
            steps != [] && 1 <= |last| <= 4 && ValidateChunk(last) == None
  {
    hide Cut;
    var all := EndingInObserve(steps);
    CutIsEmptyIff(all);
    PieceAt(all, |Cut(all)| - 1);
  }

  /** Splitting what was split gives the same chunks: the appended observation is stable. */
  lemma SplittingIsIdempotent(steps: seq<PlanStep>)
    ensures SplitSteps(Flatten(SplitSteps(steps))) == SplitSteps(steps)
  {
    SplittingConserves(steps);
    assert EndingInObserve(EndingInObserve(steps)) == EndingInObserve(steps);
  }

  /** Only the last chunk is made to end in an observation: every chunk is valid if and only if the
      plan itself observes at every fourth step before its last chunk. */
  lemma EveryChunkIsValidIff(steps: seq<PlanStep>)
    ensures var chunks := SplitSteps(steps);
            (forall k :: 0 <= k < |chunks| ==> ValidateChunk(chunks[k].steps) == None) <==>
            (forall i :: 0 <= i < |EndingInObserve(steps)| - 1 && i % 4 == 3 ==> IsObserve(steps[i]))
  {
    hide Cut, ValidateChunk;
    var all := EndingInObserve(steps);
    var chunks := SplitSteps(steps);
    SplittingConserves(steps);
    if forall k :: 0 <= k < |chunks| ==> ValidateChunk(chunks[k].steps) == None {
      forall i | 0 <= i < |all| - 1 && i % 4 == 3
        ensures IsObserve(steps[i])
      {
        var k := i / 4;
        NotLast(all, k);
        ChunkIsValidIff(steps, k);
        assert ValidateChunk(chunks[k].steps) == None;
      }
    }
    if forall i :: 0 <= i < |all| - 1 && i % 4 == 3 ==> IsObserve(steps[i]) {
      forall k | 0 <= k < |chunks| - 1
        ensures ValidateChunk(chunks[k].steps) == None
      {
        ChunkIsValidIff(steps, k);
        assert (4 * k + 3) % 4 == 3;
      }
    }
  }

  lemma ChunkIsValidIff(steps: seq<PlanStep>, k: nat)
    requires k < |Cut(EndingInObserve(steps))| - 1
    ensures 4 * k + 3 < |EndingInObserve(steps)| - 1
    ensures ValidateChunk(SplitSteps(steps)[k].steps) == None <==> IsObserve(steps[4 * k + 3])
  {
    hide Cut;
    PieceAt(EndingInObserve(steps), k);
  }

  lemma {:induction false} NotLast(steps: seq<PlanStep>, k: nat)
    requires 4 * k + 4 < |steps|
    ensures k < |Cut(steps)| - 1
    decreases k
  {
    var n := Min(|steps|, MAX_CHUNK_SIZE);
    if k > 0 {
      NotLast(steps[n..], k - 1);
    } else {
      assert Cut(steps[n..]) != [];
    }
  }

  /** The smallest plan whose first chunk does not end in an observation: four taps. */
  lemma FourTapsAreSplitUnobserved(tap: PlanStep)
    requires tap.action.Tap?
    ensures var chunks := SplitSteps([tap, tap, tap, tap]);
            |chunks| == 2 && ValidateChunk(chunks[0].steps) == Some(MissingObserve)
  {
    var all := EndingInObserve([tap, tap, tap, tap]);
    assert all == [tap, tap, tap, tap, APPENDED_OBSERVE];
    PieceAt(all, 0);
    NotLast(all, 0);
    PieceAt(all, 1);
  }
}
