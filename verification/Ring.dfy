/** The single-producer single-consumer gamepad ring (src/gamepad_ring.rs) as a step machine: every
    atomic load or store and every slot access is one step, the two threads interleave freely,
    counters wrap at `m`, and the producer may read a stale tail. */
module Rings {
  import opened Bytes
  import opened Wrapping

  const RING_CAPACITY := 8

  /** Counter values: usize is 2^32 or 2^64, any multiple of the capacity beyond it will do. */
  type Modulus = m: nat | m > 8 && m % 8 == 0 witness 16

  /** Where the producer is inside `push`. */
  datatype Pushing<F> =
    | PushIdle
    | PushHead(frame: F, head: nat)
    | PushTail(frame: F, head: nat, tail: nat)
    | PushWritten(frame: F, head: nat)

  /** Where the consumer is inside `pop`; `seen` counts the frames published when the head was
      loaded. */
  datatype Popping<F> =
    | PopIdle
    | PopTail(tail: nat)
    | PopHead(tail: nat, head: nat, seen: nat)
    | PopRead(tail: nat, frame: F)

  datatype Ring<F> = Ring(
    head: nat, tail: nat, slots: seq<Option<F>>,
    pushing: Pushing<F>, popping: Popping<F>,
    accepted: seq<F>,      // frames published so far
    popped: seq<F>,        // frames whose slot has been given back
    seenTail: nat)         // frames the producer knows to be popped

  function Empty<F>(): Ring<F> {
    Ring(0, 0, seq(8, _ => None), PushIdle, PopIdle, [], [], 0)
  }

  function WrappingSub(m: Modulus, a: nat, b: nat): nat {
    (a - b) % m
  }

  datatype Step<F> =
    | LoadHead(frame: F)
    | LoadTail(upTo: nat)       // the producer reads the tail as of `upTo` popped frames
    | RejectFull
    | WriteSlot
    | PublishHead
    | PopLoadTail
    | PopLoadHead
    | PopEmpty
    | ReadSlot
    | PublishTail

  predicate Enabled<F>(m: Modulus, r: Ring<F>, st: Step<F>) {
    match st
    case LoadHead(_) => r.pushing.PushIdle?
    case LoadTail(k) => r.pushing.PushHead? && r.seenTail <= k <= |r.popped|
    case RejectFull => r.pushing.PushTail? && WrappingSub(m, r.pushing.head, r.pushing.tail) >= RING_CAPACITY
    case WriteSlot =>
      && r.pushing.PushTail? && WrappingSub(m, r.pushing.head, r.pushing.tail) < RING_CAPACITY
      && r.pushing.head % RING_CAPACITY < |r.slots|
    case PublishHead => r.pushing.PushWritten?
    case PopLoadTail => r.popping.PopIdle?
    case PopLoadHead => r.popping.PopTail?
    case PopEmpty => r.popping.PopHead? && r.popping.head == r.popping.tail
    case ReadSlot =>
      && r.popping.PopHead? && r.popping.head != r.popping.tail
      && r.popping.tail % RING_CAPACITY < |r.slots| && r.slots[r.popping.tail % RING_CAPACITY].Some?
    case PublishTail => r.popping.PopRead?
  }

  function After<F>(m: Modulus, r: Ring<F>, st: Step<F>): Ring<F>
    requires Enabled(m, r, st)
  {
    match st
    case LoadHead(f) => r.(pushing := PushHead(f, r.head))
    case LoadTail(k) => r.(pushing := PushTail(r.pushing.frame, r.pushing.head, k % m), seenTail := k)
    case RejectFull => r.(pushing := PushIdle)
    case WriteSlot =>
      r.(pushing := PushWritten(r.pushing.frame, r.pushing.head),
         slots := r.slots[r.pushing.head % RING_CAPACITY := Some(r.pushing.frame)])
    case PublishHead =>
      r.(pushing := PushIdle, head := (r.pushing.head + 1) % m,
         accepted := r.accepted + [r.pushing.frame])
    case PopLoadTail => r.(popping := PopTail(r.tail))
    case PopLoadHead => r.(popping := PopHead(r.popping.tail, r.head, |r.accepted|))
    case PopEmpty => r.(popping := PopIdle)
    case ReadSlot =>
      r.(popping := PopRead(r.popping.tail, r.slots[r.popping.tail % RING_CAPACITY].value))
    case PublishTail =>
      r.(popping := PopIdle, tail := (r.popping.tail + 1) % m, popped := r.popped + [r.popping.frame])
  }

  // The invariant ------------------------------------------------------------------------

  /** The frames in the ring, oldest first. */
  function Contents<F>(r: Ring<F>): seq<F>
    requires |r.popped| <= |r.accepted|
  {
    r.accepted[|r.popped|..]
  }

  ghost predicate Inv<F>(m: Modulus, r: Ring<F>) {
    && |r.slots| == 8
    && r.popped <= r.accepted
    && r.seenTail <= |r.popped| && |r.accepted| - r.seenTail <= RING_CAPACITY
    && r.head == |r.accepted| % m && r.tail == |r.popped| % m
    && (forall i :: |r.popped| <= i < |r.accepted| ==> r.slots[i % 8] == Some(r.accepted[i]))
    && (r.pushing.PushHead? ==> r.pushing.head == r.head)
    && (r.pushing.PushTail? ==> r.pushing.head == r.head && r.pushing.tail == r.seenTail % m)
    && (r.pushing.PushWritten? ==>
          r.pushing.head == r.head && |r.accepted| - r.seenTail < RING_CAPACITY
          && r.slots[|r.accepted| % 8] == Some(r.pushing.frame))
    && (r.popping.PopTail? ==> r.popping.tail == r.tail)
    && (r.popping.PopHead? ==>
          && r.popping.tail == r.tail && r.popping.head == r.popping.seen % m
          && |r.popped| <= r.popping.seen <= |r.accepted|)
    && (r.popping.PopRead? ==>
          r.popping.tail == r.tail && |r.popped| < |r.accepted| && r.popping.frame == r.accepted[|r.popped|])
  }

  // Safety -------------------------------------------------------------------------------

  /** The difference of two wrapped counters is exact while they are closer than the modulus. */
  lemma WrappedDifference(m: Modulus, a: nat, b: nat)
    requires b <= a && a - b < m
    ensures WrappingSub(m, a % m, b % m) == a - b
  {
    DifferenceOfWrapped(m, a, b);
    Remainder(a - b, m, 0, a - b);
  }

  /** Two positions less than a lap apart use different slots. */
  lemma DifferentSlots(i: nat, j: nat)
    requires i < j < i + 8
    ensures i % 8 != j % 8
  {
  }

  /** What the producer's full check sees is exact even though the tail may be stale. */
  lemma FullCheck<F>(m: Modulus, r: Ring<F>)
    requires Inv(m, r) && r.pushing.PushTail?
    ensures WrappingSub(m, r.pushing.head, r.pushing.tail) == |r.accepted| - r.seenTail
  {
    WrappedDifference(m, |r.accepted|, r.seenTail);
  }

  /** The consumer's emptiness test is exact despite wrapping. */
  lemma EmptyCheck<F>(m: Modulus, r: Ring<F>)
    requires Inv(m, r) && r.popping.PopHead?
    ensures r.popping.head == r.popping.tail <==> r.popping.seen == |r.popped|
  {
    WrappedDifference(m, r.popping.seen, |r.popped|);
    assert r.popping.head == r.popping.tail ==> WrappingSub(m, r.popping.head, r.popping.tail) == 0 by {
      Remainder(0, m, 0, 0);
    }
  }

  lemma PushKeepsInv<F>(m: Modulus, r: Ring<F>, st: Step<F>)
    requires Inv(m, r) && Enabled(m, r, st)
    requires st.LoadHead? || st.LoadTail? || st.RejectFull?
    ensures Inv(m, After(m, r, st))
  {
  }

  lemma WriteKeepsInv<F>(m: Modulus, r: Ring<F>, st: Step<F>)
    requires Inv(m, r) && Enabled(m, r, st) && st.WriteSlot?
    ensures Inv(m, After(m, r, st))
  {
    FullCheck(m, r);
    WrapKeepsPosition(|r.accepted|, m, 8);
    var r' := After(m, r, st);
    forall i | |r.popped| <= i < |r.accepted|
      ensures r'.slots[i % 8] == Some(r.accepted[i])
    {
      DifferentSlots(i, |r.accepted|);
    }
  }

  lemma PublishKeepsInv<F>(m: Modulus, r: Ring<F>, st: Step<F>)
    requires Inv(m, r) && Enabled(m, r, st) && st.PublishHead?
    ensures Inv(m, After(m, r, st))
  {
    NextWrapped(m, |r.accepted|);
    WrapKeepsPosition(|r.accepted|, m, 8);
    var r' := After(m, r, st);
    assert r.popped <= r'.accepted;
  }

  lemma PopKeepsInv<F>(m: Modulus, r: Ring<F>, st: Step<F>)
    requires Inv(m, r) && Enabled(m, r, st)
    requires st.PopLoadTail? || st.PopLoadHead? || st.PopEmpty?
    ensures Inv(m, After(m, r, st))
  {
  }

  lemma ReadKeepsInv<F>(m: Modulus, r: Ring<F>, st: Step<F>)
    requires Inv(m, r) && Enabled(m, r, st) && st.ReadSlot?
    ensures Inv(m, After(m, r, st))
  {
    EmptyCheck(m, r);
    WrapKeepsPosition(|r.popped|, m, 8);
  }

  lemma ReleaseKeepsInv<F>(m: Modulus, r: Ring<F>, st: Step<F>)
    requires Inv(m, r) && Enabled(m, r, st) && st.PublishTail?
    ensures Inv(m, After(m, r, st))
  {
    NextWrapped(m, |r.popped|);
    var r' := After(m, r, st);
    assert r'.popped == r.accepted[..|r.popped| + 1];
  }

  lemma StepKeepsInv<F>(m: Modulus, r: Ring<F>, st: Step<F>)
    requires Inv(m, r) && Enabled(m, r, st)
    ensures Inv(m, After(m, r, st))
  {
    hide Inv, After, Enabled;
    match st
    case WriteSlot => WriteKeepsInv(m, r, st);
    case PublishHead => PublishKeepsInv(m, r, st);
    case ReadSlot => ReadKeepsInv(m, r, st);
    case PublishTail => ReleaseKeepsInv(m, r, st);
    case LoadHead(_) => PushKeepsInv(m, r, st);
    case LoadTail(_) => PushKeepsInv(m, r, st);
    case RejectFull => PushKeepsInv(m, r, st);
    case PopLoadTail => PopKeepsInv(m, r, st);
    case PopLoadHead => PopKeepsInv(m, r, st);
    case PopEmpty => PopKeepsInv(m, r, st);
  }

  predicate Runs<F>(m: Modulus, r: Ring<F>, steps: seq<Step<F>>)
    decreases |steps|
  {
    steps == [] || (Enabled(m, r, steps[0]) && Runs(m, After(m, r, steps[0]), steps[1..]))
  }

  function Final<F>(m: Modulus, r: Ring<F>, steps: seq<Step<F>>): Ring<F>
    requires Runs(m, r, steps)
    decreases |steps|
  {
    if steps == [] then r else Final(m, After(m, r, steps[0]), steps[1..])
  }

  lemma {:induction false} RunKeepsInv<F>(m: Modulus, r: Ring<F>, steps: seq<Step<F>>)
    requires Inv(m, r) && Runs(m, r, steps)
    ensures Inv(m, Final(m, r, steps))
    decreases |steps|
  {
    hide Inv, After, Enabled;
    if steps != [] {
      StepKeepsInv(m, r, steps[0]);
      RunKeepsInv(m, After(m, r, steps[0]), steps[1..]);
    }
  }

  /** The producer's next slot write and the consumer's next slot read. */
  predicate AboutToWrite<F>(m: Modulus, r: Ring<F>, slot: nat) {
    && r.pushing.PushTail? && WrappingSub(m, r.pushing.head, r.pushing.tail) < RING_CAPACITY
    && slot == r.pushing.head % RING_CAPACITY
  }

  predicate AboutToRead<F>(r: Ring<F>, slot: nat) {
    r.popping.PopHead? && r.popping.head != r.popping.tail && slot == r.popping.tail % RING_CAPACITY
  }

  /** In every interleaving of the two threads, with wrapping counters and stale tails: the popped
      frames followed by the ring's contents are the accepted frames in order; at most eight are
      held; a slot about to be read holds the next frame; and the producer is never about to write
      a slot the consumer is about to read. */
  lemma RingSafety<F>(m: Modulus, steps: seq<Step<F>>, written: nat, read: nat)
    requires Runs(m, Empty<F>(), steps)
    ensures var r := Final(m, Empty<F>(), steps);
            && |r.popped| <= |r.accepted| && r.popped + Contents(r) == r.accepted
            && |Contents(r)| <= RING_CAPACITY
            && (AboutToRead(r, read) ==>
                  && read < |r.slots| && |r.popped| < |r.accepted|
                  && r.slots[read] == Some(r.accepted[|r.popped|]))
            && (AboutToWrite(m, r, written) && AboutToRead(r, read) ==> written != read)
  {
    hide Runs, Final;
    assert Inv(m, Empty<F>()) by { Remainder(0, m, 0, 0); }
    RunKeepsInv(m, Empty<F>(), steps);
    var r := Final(m, Empty<F>(), steps);
    if AboutToRead(r, read) {
      EmptyCheck(m, r);
      WrapKeepsPosition(|r.popped|, m, 8);
      if AboutToWrite(m, r, written) {
        FullCheck(m, r);
        WrapKeepsPosition(|r.accepted|, m, 8);
        DifferentSlots(|r.popped|, |r.accepted|);
      }
    }
  }

  /** A push is rejected exactly when the frames not known to be popped fill the ring, and with an
      up-to-date tail exactly when the ring is full. */
  lemma RejectedIffFull<F>(m: Modulus, r: Ring<F>)
    requires Inv(m, r) && r.pushing.PushTail?
    ensures Enabled(m, r, RejectFull) <==> |r.accepted| - r.seenTail == RING_CAPACITY
    ensures r.seenTail == |r.popped| ==> (Enabled(m, r, RejectFull) <==> |Contents(r)| == RING_CAPACITY)
  {
    FullCheck(m, r);
  }

  /** Neither thread ever gets stuck or reads an unwritten slot: each always has exactly the one
      next step that its position and its checks call for. */
  lemma NeitherThreadIsStuck<F>(m: Modulus, r: Ring<F>)
    requires Inv(m, r)
    ensures match r.pushing
            case PushIdle => forall f: F :: Enabled(m, r, LoadHead(f))
            case PushHead(_, _) => Enabled(m, r, LoadTail(|r.popped|))
            case PushTail(_, _, _) => Enabled(m, r, RejectFull) <==> !Enabled(m, r, WriteSlot)
            case PushWritten(_, _) => Enabled(m, r, PublishHead)
    ensures match r.popping
            case PopIdle => Enabled(m, r, PopLoadTail)
            case PopTail(_) => Enabled(m, r, PopLoadHead)
            case PopHead(_, _, _) => Enabled(m, r, PopEmpty) <==> !Enabled(m, r, ReadSlot)
            case PopRead(_, _) => Enabled(m, r, PublishTail)
  {
    if r.popping.PopHead? {
      EmptyCheck(m, r);
      WrapKeepsPosition(|r.popped|, m, 8);
    }
  }
}
