/** The ring as the object of src/gamepad_ring.rs. Each method runs one thread's steps of the
    machine in Rings back to back. */
module GamepadRings {
  import opened Bytes
  import opened Wrapping
  import opened Rings

  /** `push` with no consumer step in between and an up-to-date tail. */
  function PushAlone<F>(m: Modulus, r: Ring<F>, f: F): (Ring<F>, bool)
    requires Rings.Inv(m, r) && r.pushing.PushIdle?
  {
    var r1 := After(m, r, LoadHead(f));
    var r2 := After(m, r1, LoadTail(|r.popped|));
    StepKeepsInv(m, r, LoadHead(f));
    StepKeepsInv(m, r1, LoadTail(|r.popped|));
    NeitherThreadIsStuck(m, r2);
    if Enabled(m, r2, RejectFull) then (After(m, r2, RejectFull), false)
    else (After(m, After(m, r2, WriteSlot), PublishHead), true)
  }

  /** `pop` with no producer step in between. */
  function PopAlone<F>(m: Modulus, r: Ring<F>): (Ring<F>, Option<F>)
    requires Rings.Inv(m, r) && r.popping.PopIdle?
  {
    var r1 := After(m, r, PopLoadTail);
    var r2 := After(m, r1, PopLoadHead);
    StepKeepsInv(m, r, PopLoadTail);
    StepKeepsInv(m, r1, PopLoadHead);
    NeitherThreadIsStuck(m, r2);
    if Enabled(m, r2, PopEmpty) then (After(m, r2, PopEmpty), None)
    else
      var r3 := After(m, r2, ReadSlot);
      (After(m, r3, PublishTail), Some(r3.popping.frame))
  }

  /** Alone, a push succeeds exactly when there is room and then appends its frame. */
  lemma PushAppends<F>(m: Modulus, r: Ring<F>, f: F)
    requires Rings.Inv(m, r) && r.pushing.PushIdle?
    ensures var (r', ok) := PushAlone(m, r, f);
            && Rings.Inv(m, r') && r'.pushing.PushIdle? && r'.popping == r.popping && r'.popped == r.popped
            && (ok <==> |Contents(r)| < RING_CAPACITY)
            && Contents(r') == (if ok then Contents(r) + [f] else Contents(r))
  {
    hide Rings.Inv;
    PopsArePrefix(m, r);
    var r1 := After(m, r, LoadHead(f));
    var r2 := After(m, r1, LoadTail(|r.popped|));
    StepKeepsInv(m, r, LoadHead(f));
    StepKeepsInv(m, r1, LoadTail(|r.popped|));
    RejectedIffFull(m, r2);
    if Enabled(m, r2, RejectFull) {
      StepKeepsInv(m, r2, RejectFull);
    } else {
      NeitherThreadIsStuck(m, r2);
      var r3 := After(m, r2, WriteSlot);
      StepKeepsInv(m, r2, WriteSlot);
      StepKeepsInv(m, r3, PublishHead);
      assert (r.accepted + [f])[|r.popped|..] == r.accepted[|r.popped|..] + [f];
    }
  }

  lemma PopsArePrefix<F>(m: Modulus, r: Ring<F>)
    requires Rings.Inv(m, r)
    ensures |r.popped| <= |r.accepted| && r.seenTail <= |r.popped| && |r.slots| == 8
    ensures |Contents(r)| <= RING_CAPACITY
  {
  }

  /** Alone, a pop takes the oldest frame, or finds nothing exactly when the ring is empty. */
  lemma PopTakesTheOldest<F>(m: Modulus, r: Ring<F>)
    requires Rings.Inv(m, r) && r.popping.PopIdle?
    ensures var (r', f) := PopAlone(m, r);
            && Rings.Inv(m, r') && r'.popping.PopIdle? && r'.pushing == r.pushing && r'.accepted == r.accepted
            && f == (if Contents(r) == [] then None else Some(Contents(r)[0]))
            && Contents(r') == (if f == None then Contents(r) else Contents(r)[1..])
  {
    hide Rings.Inv;
    var r1 := After(m, r, PopLoadTail);
    var r2 := After(m, r1, PopLoadHead);
    StepKeepsInv(m, r, PopLoadTail);
    StepKeepsInv(m, r1, PopLoadHead);
    NeitherThreadIsStuck(m, r2);
    EmptyCheck(m, r2);
    PopsArePrefix(m, r);
    if Enabled(m, r2, PopEmpty) {
      StepKeepsInv(m, r2, PopEmpty);
    } else {
      var r3 := After(m, r2, ReadSlot);
      StepKeepsInv(m, r2, ReadSlot);
      StepKeepsInv(m, r3, PublishTail);
      FrameReadIsNext(m, r3);
    }
  }

  lemma FrameReadIsNext<F>(m: Modulus, r: Ring<F>)
    requires Rings.Inv(m, r) && r.popping.PopRead?
    ensures |r.popped| < |r.accepted| && r.popping.frame == r.accepted[|r.popped|]
  {
  }

  class GamepadFrameRing<F> {
    const modulus: Modulus
    var head: nat
    var tail: nat
    const slots: array<Option<F>>
    ghost var accepted: seq<F>
    ghost var popped: seq<F>
    ghost var seenTail: nat

    ghost function View(): Ring<F>
      reads this, slots
    {
      Ring(head, tail, slots[..], PushIdle, PopIdle, accepted, popped, seenTail)
    }

    ghost predicate Valid()
      reads this, slots
    {
      slots.Length == RING_CAPACITY && Rings.Inv(modulus, View())
    }

    constructor (modulus: Modulus)
      ensures Valid() && View() == Empty() && fresh(slots)
    {
      this.modulus := modulus;
      head, tail := 0, 0;
      slots := new Option<F>[RING_CAPACITY](_ => None);
      accepted, popped, seenTail := [], [], 0;
      new;
      assert slots[..] == seq(8, _ => None);
      Remainder(0, modulus, 0, 0);
    }

    /** Returns whether there was room. */
    method Push(frame: F) returns (ok: bool)
      requires Valid()
      modifies this, slots
      ensures Valid() && (View(), ok) == PushAlone(modulus, old(View()), frame)
      ensures ok <==> |old(Contents(View()))| < RING_CAPACITY
      ensures Contents(View()) == if ok then old(Contents(View())) + [frame] else old(Contents(View()))
    {
      hide Rings.Inv;
      ghost var r := View();
      PushAppends(modulus, r, frame);
      PopsArePrefix(modulus, r);
      var h := head;
      var t := tail;
      seenTail := |popped|;
      AtRest(modulus, r);
      if WrappingSub(modulus, h, t) >= RING_CAPACITY {
        assert View() == PushAlone(modulus, r, frame).0;
        return false;
      }
      slots[h % RING_CAPACITY] := Some(frame);
      assert slots[..] == r.slots[h % RING_CAPACITY := Some(frame)];
      head := (h + 1) % modulus;
      accepted := accepted + [frame];
      assert View() == PushAlone(modulus, r, frame).0;
      ok := true;
    }

    method Pop() returns (frame: Option<F>)
      requires Valid()
      modifies this
      ensures Valid() && (View(), frame) == PopAlone(modulus, old(View()))
      ensures frame == if old(Contents(View())) == [] then None else Some(old(Contents(View()))[0])
      ensures Contents(View()) == if frame == None then old(Contents(View())) else old(Contents(View()))[1..]
    {
      hide Rings.Inv;
      ghost var r := View();
      PopTakesTheOldest(modulus, r);
      PopsArePrefix(modulus, r);
      var t := tail;
      var h := head;
      if h == t { return None; }
      SlotIsWritten(modulus, r);
      frame := slots[t % RING_CAPACITY];
      tail := (t + 1) % modulus;
      popped := popped + [frame.value];
      assert View() == PopAlone(modulus, r).0;
    }
  }

  lemma AtRest<F>(m: Modulus, r: Ring<F>)
    requires Rings.Inv(m, r)
    ensures r.tail == |r.popped| % m && r.head == |r.accepted| % m
  {
  }

  lemma SlotIsWritten<F>(m: Modulus, r: Ring<F>)
    requires Rings.Inv(m, r) && r.popping.PopIdle? && r.head != r.tail
    ensures |r.slots| == 8 && r.slots[r.tail % 8].Some?
  {
    hide Rings.Inv;
    var r1 := After(m, r, PopLoadTail);
    var r2 := After(m, r1, PopLoadHead);
    StepKeepsInv(m, r, PopLoadTail);
    StepKeepsInv(m, r1, PopLoadHead);
    NeitherThreadIsStuck(m, r2);
    PopsArePrefix(m, r);
  }
}
