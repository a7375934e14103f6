/** What the batchers put on the channel: only full batches until a flush asks for the rest, single frames
    as single commands, and errors exactly for the sends that the channel refused (src/client.rs). */
module BatcherTraffic {
  import opened Bytes
  import opened Batchers

  predicate Turns(a: Answer, blocking: bool) {
    a == Disconnected || (a == Full && !blocking)
  }

  /** The sends made between two states: only the last can have been turned down, and exactly then the
      result is its error. */
  ghost predicate Answered<F>(net: nat -> Answer, a: Batcher<F>, b: Batcher<F>, blocking: bool, r: Result<()>) {
    && a.sends <= b.sends
    && |b.sent| + (if r.Err? then 1 else 0) == |a.sent| + (b.sends - a.sends)
    && (forall i :: a.sends <= i < b.sends - (if r.Err? then 1 else 0) ==> !Turns(net(i), blocking))
    && (r.Err? ==>
          && a.sends < b.sends && Turns(net(b.sends - 1), blocking)
          && r.error == (if net(b.sends - 1) == Full then ChannelFull else DispatcherDown))
  }

  /** A command of one frame is the single-frame command, except for touches. */
  predicate WellPut<F>(shape: Shape, s: Sent<F>) {
    s.One? <==> |FramesOf(s)| == 1 && shape != TouchShape
  }

  predicate IsFull<F>(b: Batcher<F>, s: Sent<F>) {
    if b.shape == EagerVector then |FramesOf(s)| >= b.cap else |FramesOf(s)| == b.cap
  }

  /** The commands sent between two states of a batcher. */
  ghost predicate Sends<F>(a: Batcher<F>, b: Batcher<F>, onlyFull: bool) {
    && b.shape == a.shape && b.cap == a.cap && a.sent <= b.sent
    && (forall i :: |a.sent| <= i < |b.sent| ==> WellPut(b.shape, b.sent[i]) && (onlyFull ==> IsFull(b, b.sent[i])))
  }

  ghost predicate Behaves<F>(
    net: nat -> Answer, a: Batcher<F>, b: Batcher<F>, blocking: bool, r: Result<()>, onlyFull: bool)
  {
    b.Valid() && Answered(net, a, b, blocking, r) && Sends(a, b, onlyFull)
  }

  lemma BehavesThen<F>(net: nat -> Answer, a: Batcher<F>, b: Batcher<F>, c: Batcher<F>, blocking: bool,
                       r1: Result<()>, r2: Result<()>, onlyFull: bool)
    requires Behaves(net, a, b, blocking, r1, onlyFull) && r1.Ok? && Behaves(net, b, c, blocking, r2, onlyFull)
    ensures Behaves(net, a, c, blocking, r2, onlyFull)
  {
    assert forall i :: |a.sent| <= i < |b.sent| ==> c.sent[i] == b.sent[i];
  }

  lemma NothingSent<F>(net: nat -> Answer, a: Batcher<F>, b: Batcher<F>, blocking: bool, onlyFull: bool)
    requires b.Valid() && b == a.(buffer := b.buffer)
    ensures Behaves(net, a, b, blocking, Ok(()), onlyFull)
  {
  }

  lemma FlushBehaves<F>(net: nat -> Answer, b: Batcher<F>, blocking: bool, onlyFull: bool)
    requires b.Valid() && (onlyFull ==> b.Brimming())
    ensures var (b', r) := Flush(net, b, blocking);
            && Behaves(net, b, b', blocking, r, onlyFull)
            && (r.Ok? ==> b'.buffer == []) && (r.Err? ==> b'.buffer == b.buffer)
  {
  }

  lemma BrimBehaves<F>(net: nat -> Answer, b: Batcher<F>, blocking: bool)
    requires b.Valid()
    ensures var (b', r) := FlushIfBrimming(net, b, blocking);
            && Behaves(net, b, b', blocking, r, true) && (r.Ok? ==> !b'.Brimming())
            && (b'.buffer == b.buffer || b'.buffer == [])
  {
    hide Flush, Behaves;
    if b.Brimming() {
      FlushBehaves(net, b, blocking, true);
      assert Behaves(net, b, Flush(net, b, blocking).0, blocking, Flush(net, b, blocking).1, true);
      KeepsForm(net, b, blocking);
    } else {
      NothingSent(net, b, b, blocking, true);
    }
  }

  lemma KeepsForm<F>(net: nat -> Answer, b: Batcher<F>, blocking: bool)
    ensures Flush(net, b, blocking).0.cap == b.cap
  {
  }

  lemma TakingBehaves<F>(net: nat -> Answer, a: Batcher<F>, b: Batcher<F>, c: Batcher<F>, blocking: bool, r: Result<()>)
    requires Behaves(net, a, b, blocking, r, true) && r.Ok? && c == b.(buffer := c.buffer) && c.Valid()
    ensures Behaves(net, a, c, blocking, r, true)
  {
  }

  /** One push: at most full commands, and afterwards room for another frame, or at most a full array in
      the lazy forms. */
  lemma PushBehaves<F>(net: nat -> Answer, b: Batcher<F>, f: F, blocking: bool)
    requires b.Valid()
    ensures var (b', r) := Push(net, b, f, blocking);
            && Behaves(net, b, b', blocking, r, true)
            && (r.Ok? && b.shape in {EagerFixed, EagerVector} ==> !b'.Brimming())
  {
    hide FlushIfBrimming, Behaves;
    var (b1, r1) := if b.shape == EagerVector then (b, Ok(())) else FlushIfBrimming(net, b, blocking);
    BrimBehaves(net, b, blocking);
    NothingSent(net, b, b, blocking, true);
    BehavedForm(net, b, b1, blocking, r1);
    if r1.Ok? {
      var b2 := b1.(buffer := b1.buffer + [f]);
      TakingBehaves(net, b, b1, b2, blocking, r1);
      if b.shape in {EagerFixed, EagerVector} {
        BrimBehaves(net, b2, blocking);
        var (b3, r3) := FlushIfBrimming(net, b2, blocking);
        BehavesThen(net, b, b2, b3, blocking, r1, r3, true);
      } else {
        assert r1.value == ();
      }
    }
  }

  lemma BehavedForm<F>(net: nat -> Answer, a: Batcher<F>, b: Batcher<F>, blocking: bool, r: Result<()>)
    requires Behaves(net, a, b, blocking, r, true)
    ensures b.Valid() && b.shape == a.shape && b.cap == a.cap
  {
  }

  lemma {:induction false} PushManyBehaves<F>(net: nat -> Answer, b: Batcher<F>, fs: seq<F>, blocking: bool)
    requires b.Valid()
    ensures var (b', r) := PushMany(net, b, fs, blocking); Behaves(net, b, b', blocking, r, true)
    decreases |fs|
  {
    hide Push, Behaves;
    if fs == [] {
      NothingSent(net, b, b, blocking, true);
    } else {
      PushBehaves(net, b, fs[0], blocking);
      var (b1, r1) := Push(net, b, fs[0], blocking);
      BehavedForm(net, b, b1, blocking, r1);
      if r1.Ok? {
        PushManyBehaves(net, b1, fs[1..], blocking);
        var (b2, r2) := PushMany(net, b1, fs[1..], blocking);
        BehavesThen(net, b, b1, b2, blocking, r1, r2, true);
      }
    }
  }

  lemma {:induction false} PushSliceBehaves<F>(net: nat -> Answer, b: Batcher<F>, fs: seq<F>, blocking: bool)
    requires b.Valid()
    ensures var (b', r) := PushSlice(net, b, fs, blocking);
            && Behaves(net, b, b', blocking, r, true)
            && (r.Ok? && fs != [] ==> !b'.Brimming())
    decreases |fs|
  {
    hide FlushIfBrimming, Behaves;
    if fs == [] {
      NothingSent(net, b, b, blocking, true);
    } else {
      BrimBehaves(net, b, blocking);
      var (b1, r1) := FlushIfBrimming(net, b, blocking);
      BehavedForm(net, b, b1, blocking, r1);
      if r1.Ok? {
        var n := Room(b1, |fs|);
        var b2 := b1.(buffer := b1.buffer + fs[..n]);
        TakingBehaves(net, b, b1, b2, blocking, r1);
        BrimBehaves(net, b2, blocking);
        var (b3, r3) := FlushIfBrimming(net, b2, blocking);
        BehavesThen(net, b, b2, b3, blocking, r1, r3, true);
        BehavedForm(net, b2, b3, blocking, r3);
        if r3.Ok? {
          PushSliceBehaves(net, b3, fs[n..], blocking);
          var (b4, r4) := PushSlice(net, b3, fs[n..], blocking);
          BehavesThen(net, b, b3, b4, blocking, r3, r4, true);
        }
      }
    }
  }

  predicate Blocks<F>(op: Op<F>) {
    match op
    case PushOne(_, w) => w
    case PushEach(_, w) => w
    case PushAll(_, w) => w
    case FlushOp(w) => w
  }

  /** Every call under every channel: pushes send only full batches, whatever they are given, and leave an
      eager batcher with room; single frames go as single commands; and the call fails exactly when a
      send is turned down, with that send's error, making none after it. */
  lemma CallsSendFullBatches<F>(net: nat -> Answer, b: Batcher<F>, op: Op<F>)
    requires b.Valid()
    ensures var (b', r) := Apply(net, b, op);
            && Answered(net, b, b', Blocks(op), r) && Sends(b, b', !op.FlushOp?)
            && (r.Ok? && op.FlushOp? ==> b'.buffer == [])
            && (r.Ok? && ((op.PushOne? && b.shape in {EagerFixed, EagerVector}) || (op.PushAll? && op.slice != [])) ==>
                  !b'.Brimming())
  {
    hide Push, PushMany, PushSlice, Flush;
    match op
    case PushOne(f, blocking) => PushBehaves(net, b, f, blocking);
    case PushEach(fs, blocking) => PushManyBehaves(net, b, fs, blocking);
    case PushAll(fs, blocking) => PushSliceBehaves(net, b, fs, blocking);
    case FlushOp(blocking) => FlushBehaves(net, b, blocking, false);
  }

  /** The batchers a client makes: touches in 24, the other fixed forms in 32, gamepad frames in the size
      asked for, at least one, from an array if that fits 32 and from a vector otherwise. */
  lemma NewBatchers<F>(size: nat)
    ensures New<F>(TouchShape, size).cap == 24 && New<F>(LazyShape, size).cap == 32
    ensures var b := New<F>(EagerShape(size), size);
            && b.buffer == [] && b.cap == (if size == 0 then 1 else size)
            && (b.shape == EagerFixed <==> size <= 32) && (b.shape == EagerVector <==> size > 32)
  {
  }
}
