/** What the batchers promise under every answer of the channel. */
module BatcherLaws {
  import opened Bytes
  import opened Batchers

  // Micro-steps --------------------------------------------------------------------------

  /** The two things a batcher ever does: take frames into its buffer, or hand the whole buffer to
      the channel. `sent` says whether the channel took it. */
  datatype Micro<F> = Take(frames: seq<F>) | Offer(taken: bool)

  function MicroStep<F>(b: Batcher<F>, m: Micro<F>): Batcher<F> {
    match m
    case Take(fs) => b.(buffer := b.buffer + fs)
    case Offer(taken) =>
      if b.buffer == [] then b
      else if taken then b.(sends := b.sends + 1, sent := b.sent + [CommandFor(b)], buffer := [])
      else b.(sends := b.sends + 1)
  }

  function MicroRun<F>(b: Batcher<F>, ms: seq<Micro<F>>): Batcher<F>
    decreases |ms|
  {
    if ms == [] then b else MicroRun(MicroStep(b, ms[0]), ms[1..])
  }

  function Taken<F>(ms: seq<Micro<F>>): seq<F> {
    if ms == [] then [] else TakenBy(ms[0]) + Taken(ms[1..])
  }

  function TakenBy<F>(m: Micro<F>): seq<F> {
    if m.Take? then m.frames else []
  }

  lemma {:induction false} MicroRunAppend<F>(b: Batcher<F>, x: seq<Micro<F>>, y: seq<Micro<F>>)
    ensures MicroRun(b, x + y) == MicroRun(MicroRun(b, x), y)
    decreases |x|
  {
    hide MicroStep;
    if x == [] {
      assert x + y == y;
    } else {
      assert (x + y)[0] == x[0] && (x + y)[1..] == x[1..] + y;
      MicroRunAppend(MicroStep(b, x[0]), x[1..], y);
    }
  }

  lemma {:induction false} TakenAppend<F>(x: seq<Micro<F>>, y: seq<Micro<F>>)
    ensures Taken(x + y) == Taken(x) + Taken(y)
    decreases |x|
  {
    hide TakenBy;
    if x == [] {
      assert x + y == y;
    } else {
      assert (x + y)[0] == x[0] && (x + y)[1..] == x[1..] + y;
      TakenAppend(x[1..], y);
      assert Taken(x + y) == TakenBy(x[0]) + (Taken(x[1..]) + Taken(y));
    }
  }

  /** No micro-step loses, repeats or reorders a frame, whatever the channel answers. */
  lemma {:induction false} MicrosConserve<F>(b: Batcher<F>, ms: seq<Micro<F>>)
    ensures MicroRun(b, ms).Log() == b.Log() + Taken(ms)
    ensures MicroRun(b, ms).cap == b.cap && MicroRun(b, ms).shape == b.shape
    decreases |ms|
  {
    if ms == [] {
      assert b.Log() + [] == b.Log();
    } else {
      hide MicroStep, TakenBy, SentFrames, CommandFor, Batcher.Log;
      var b1 := MicroStep(b, ms[0]);
      MicroConserves(b, ms[0]);
      MicrosConserve(b1, ms[1..]);
      var log, first, later := b.Log(), TakenBy(ms[0]), Taken(ms[1..]);
      assert log + first + later == log + (first + later);
    }
  }

  lemma MicroConserves<F>(b: Batcher<F>, m: Micro<F>)
    ensures MicroStep(b, m).Log() == b.Log() + TakenBy(m)
    ensures MicroStep(b, m).cap == b.cap && MicroStep(b, m).shape == b.shape
  {
    var b1 := MicroStep(b, m);
    if b1.sent != b.sent {
      assert b1.sent[..|b.sent|] == b.sent;
      assert FramesOf(CommandFor(b)) == b.buffer;
      assert b1.Log() == SentFrames(b.sent) + b.buffer + [];
    } else if m.Take? {
      assert SentFrames(b.sent) + (b.buffer + m.frames) == b.Log() + m.frames;
    } else {
      assert b.Log() + [] == b.Log();
    }
  }

  lemma FlushIsMicro<F>(net: nat -> Answer, b: Batcher<F>, blocking: bool) returns (m: Micro<F>)
    ensures m.Offer? && Flush(net, b, blocking).0 == MicroStep(b, m)
    ensures Flush(net, b, blocking).1.Err? ==> Flush(net, b, blocking).0.buffer == b.buffer != []
  {
    m := Offer(Refusal(net(b.sends), blocking).None?);
  }

  lemma BrimIsMicros<F>(net: nat -> Answer, b: Batcher<F>, blocking: bool) returns (ms: seq<Micro<F>>)
    ensures FlushIfBrimming(net, b, blocking).0 == MicroRun(b, ms)
    ensures Taken(ms) == []
    ensures var (b', r) := FlushIfBrimming(net, b, blocking);
            && (r.Err? ==> b'.buffer == b.buffer)
            && |b'.sent| == |b.sent| + (if b.Brimming() && r.Ok? then 1 else 0)
  {
    if b.Brimming() {
      var m := FlushIsMicro(net, b, blocking);
      ms := [m];
      assert ms[1..] == [];
    } else {
      ms := [];
    }
  }

  /** The push will not take its frame: the batcher is full and its flush will be refused. */
  predicate Refused<F>(net: nat -> Answer, b: Batcher<F>, blocking: bool) {
    b.shape != EagerVector && b.Brimming() && Refusal(net(b.sends), blocking).Some?
  }

  lemma PushIsMicros<F>(net: nat -> Answer, b: Batcher<F>, f: F, blocking: bool) returns (ms: seq<Micro<F>>)
    ensures Push(net, b, f, blocking).0 == MicroRun(b, ms)
    ensures Push(net, b, f, blocking).1.Ok? ==> Taken(ms) == [f]
    ensures Push(net, b, f, blocking).1.Err? ==>
              Taken(ms) == if Refused(net, b, blocking) then [] else [f]
  {
    hide FlushIfBrimming, MicroStep;
    var (b1, r) := if b.shape == EagerVector then (b, Ok(())) else FlushIfBrimming(net, b, blocking);
    var first: seq<Micro<F>> := [];
    if b.shape != EagerVector {
      first := BrimIsMicros(net, b, blocking);
      NotBrimming(net, b, blocking);
    }
    if r.Err? {
      ms := first;
    } else {
      var b2 := b1.(buffer := b1.buffer + [f]);
      var take: seq<Micro<F>> := [Take([f])];
      assert take[1..] == [] && Taken(take) == [f] + [];
      TakeOne(b1, [f]);
      var last: seq<Micro<F>> := [];
      if b.shape == EagerFixed || b.shape == EagerVector {
        last := BrimIsMicros(net, b2, blocking);
      }
      MicroRunAppend(b, first, take);
      MicroRunAppend(b, first + take, last);
      TakenAppend(first, take);
      TakenAppend(first + take, last);
      ms := first + take + last;
      BrimResult(net, b, blocking);
    }
  }

  lemma TakeOne<F>(b: Batcher<F>, fs: seq<F>)
    ensures MicroRun(b, [Take(fs)]) == b.(buffer := b.buffer + fs)
  {
    var one: seq<Micro<F>> := [Take(fs)];
    assert one[1..] == [];
  }

  lemma NotBrimming<F>(net: nat -> Answer, b: Batcher<F>, blocking: bool)
    ensures FlushIfBrimming(net, b, blocking).1.Err? <==> b.Brimming() && Refusal(net(b.sends), blocking).Some?
  {
  }

  lemma BrimResult<F>(net: nat -> Answer, b: Batcher<F>, blocking: bool)
    ensures FlushIfBrimming(net, b, blocking).1.Ok? ==> !FlushIfBrimming(net, b, blocking).0.Brimming()
  {
  }

  lemma {:induction false} PushManyIsMicros<F>(net: nat -> Answer, b: Batcher<F>, fs: seq<F>, blocking: bool)
    returns (ms: seq<Micro<F>>, k: nat)
    ensures PushMany(net, b, fs, blocking).0 == MicroRun(b, ms)
    ensures k <= |fs| && Taken(ms) == fs[..k]
    ensures PushMany(net, b, fs, blocking).1.Ok? ==> k == |fs|
    decreases |fs|
  {
    if fs == [] {
      ms, k := [], 0;
    } else {
      hide Push, MicroRun, Refused, Taken;
      var (b1, r) := Push(net, b, fs[0], blocking);
      var first := PushIsMicros(net, b, fs[0], blocking);
      if r.Err? {
        ms, k := first, |Taken(first)|;
      } else {
        var rest, j := PushManyIsMicros(net, b1, fs[1..], blocking);
        ms, k := first + rest, 1 + j;
        MicroRunAppend(b, first, rest);
        TakenAppend(first, rest);
        assert fs[..k] == [fs[0]] + fs[1..][..j];
      }
    }
  }

  lemma FillIsMicros<F>(net: nat -> Answer, b: Batcher<F>, fs: seq<F>, blocking: bool) returns (ms: seq<Micro<F>>)
    ensures FlushIfBrimming(net, b.(buffer := b.buffer + fs), blocking).0 == MicroRun(b, ms)
    ensures Taken(ms) == fs
  {
    hide FlushIfBrimming, MicroStep, MicroRun;
    var take: seq<Micro<F>> := [Take(fs)];
    assert take[1..] == [] && Taken(take) == fs + [];
    TakeOne(b, fs);
    var brim := BrimIsMicros(net, b.(buffer := b.buffer + fs), blocking);
    ms := take + brim;
    MicroRunAppend(b, take, brim);
    TakenAppend(take, brim);
    assert fs + [] == fs;
  }

  lemma PushSliceRound<F>(net: nat -> Answer, b: Batcher<F>, fs: seq<F>, blocking: bool)
    requires fs != []
    ensures var (b1, r1) := FlushIfBrimming(net, b, blocking);
            if r1.Err? then PushSlice(net, b, fs, blocking) == (b1, r1)
            else
              && !b1.Brimming()
              && var n := Room(b1, |fs|);
                 var (b2, r2) := FlushIfBrimming(net, b1.(buffer := b1.buffer + fs[..n]), blocking);
                 && 0 < n <= |fs|
                 && PushSlice(net, b, fs, blocking)
                    == if r2.Err? then (b2, r2) else PushSlice(net, b2, fs[n..], blocking)
  {
    hide FlushIfBrimming;
    BrimResult(net, b, blocking);
  }

  lemma Chain<F>(b: Batcher<F>, x: seq<Micro<F>>, y: seq<Micro<F>>, z: seq<Micro<F>>)
    ensures MicroRun(b, x + y + z) == MicroRun(MicroRun(MicroRun(b, x), y), z)
    ensures Taken(x + y + z) == Taken(x) + Taken(y) + Taken(z)
  {
    hide MicroRun, Taken;
    MicroRunAppend(b, x, y);
    MicroRunAppend(b, x + y, z);
    TakenAppend(x, y);
    TakenAppend(x + y, z);
  }

  lemma PrefixOf<F>(fs: seq<F>, n: nat, j: nat)
    requires n + j <= |fs|
    ensures fs[..n + j] == [] + fs[..n] + fs[n..][..j]
  {
  }

  lemma {:induction false} PushSliceIsMicros<F>(net: nat -> Answer, b: Batcher<F>, fs: seq<F>, blocking: bool)
    returns (ms: seq<Micro<F>>, k: nat)
    ensures PushSlice(net, b, fs, blocking).0 == MicroRun(b, ms)
    ensures k <= |fs| && Taken(ms) == fs[..k]
    ensures PushSlice(net, b, fs, blocking).1.Ok? ==> k == |fs|
    decreases |fs|
  {
    if fs == [] {
      ms, k := [], 0;
    } else {
      hide FlushIfBrimming, MicroRun, Taken, PushSlice, Batcher.Brimming, Room;
      var first := BrimIsMicros(net, b, blocking);
      PushSliceRound(net, b, fs, blocking);
      var (b1, r1) := FlushIfBrimming(net, b, blocking);
      if r1.Err? {
        ms, k := first, 0;
      } else {
        var n := Room(b1, |fs|);
        var second := FillIsMicros(net, b1, fs[..n], blocking);
        var (b2, r2) := FlushIfBrimming(net, b1.(buffer := b1.buffer + fs[..n]), blocking);
        var rest: seq<Micro<F>>, j := [], 0;
        if r2.Ok? {
          rest, j := PushSliceIsMicros(net, b2, fs[n..], blocking);
        } else {
          NoMicros(b2);
        }
        ms, k := first + second + rest, n + j;
        Chain(b, first, second, rest);
        PrefixOf(fs, n, j);
      }
    }
  }

  lemma NoMicros<F>(b: Batcher<F>)
    ensures MicroRun(b, []) == b && Taken<F>([]) == []
  {
  }

  // Whole calls and runs -----------------------------------------------------------------

  /** Every call is a series of micro-steps taking a prefix of what it was given, all of it if it
      returns Ok. */
  lemma ApplyIsMicros<F>(net: nat -> Answer, b: Batcher<F>, op: Op<F>) returns (ms: seq<Micro<F>>, k: nat)
    ensures Apply(net, b, op).0 == MicroRun(b, ms)
    ensures k <= |Given(op)| && Taken(ms) == Given(op)[..k]
    ensures Apply(net, b, op).1.Ok? ==> k == |Given(op)|
  {
    hide MicroStep;
    match op
    case PushOne(f, blocking) =>
      ms := PushIsMicros(net, b, f, blocking);
      k := |Taken(ms)|;
    case PushEach(fs, blocking) => ms, k := PushManyIsMicros(net, b, fs, blocking);
    case PushAll(fs, blocking) => ms, k := PushSliceIsMicros(net, b, fs, blocking);
    case FlushOp(blocking) =>
      var m := FlushIsMicro(net, b, blocking);
      ms, k := [m], 0;
      assert ms[1..] == [];
  }

  /** Conservation for one call under any answer: the sent frames followed by the buffer grow by
      the accepted prefix, and nothing else. */
  lemma ApplyConserves<F>(net: nat -> Answer, b: Batcher<F>, op: Op<F>) returns (k: nat)
    ensures k <= |Given(op)| && (Apply(net, b, op).1.Ok? ==> k == |Given(op)|)
    ensures Apply(net, b, op).0.Log() == b.Log() + Given(op)[..k]
    ensures Apply(net, b, op).0.cap == b.cap && Apply(net, b, op).0.shape == b.shape
  {
    hide MicroRun, Apply;
    var ms;
    ms, k := ApplyIsMicros(net, b, op);
    MicrosConserve(b, ms);
  }

  /** A failed flush restores the buffer exactly and sends nothing. */
  lemma FailedFlushRestores<F>(net: nat -> Answer, b: Batcher<F>, blocking: bool)
    ensures var (b', r) := Flush(net, b, blocking);
            && (r.Err? ==> b' == b.(sends := b.sends + 1))
            && (r.Ok? ==> b'.buffer == [])
            && (r.Err? <==> b.buffer != [] && Refusal(net(b.sends), blocking).Some?)
  {
  }

  /** A push leaves its frame out exactly if it finds the batcher full and the channel refuses the
      flush. Every other push has taken its frame, even one that reports an error because a later
      flush was refused; a lazy batcher never does that. */
  lemma PushTakesUnlessRefused<F>(net: nat -> Answer, b: Batcher<F>, f: F, blocking: bool)
    ensures var (b', r) := Push(net, b, f, blocking);
            var refused := Refused(net, b, blocking);
            && (refused ==> r.Err? && b'.Log() == b.Log() && b'.buffer == b.buffer)
            && (!refused ==> b'.Log() == b.Log() + [f])
            && (b.shape in {TouchShape, LazyShape} ==> (r.Err? <==> refused))
  {
    hide MicroRun;
    var ms := PushIsMicros(net, b, f, blocking);
    MicrosConserve(b, ms);
    assert b.Log() + [] == b.Log();
  }

  /** Over any run the caller's frames are all there: each call contributed a prefix of what it was
      given, in order, without loss or repetition. */
  lemma {:induction false} RunConserves<F>(net: nat -> Answer, b: Batcher<F>, ops: seq<Op<F>>) returns (cuts: seq<nat>)
    ensures |cuts| == |ops| && forall i :: 0 <= i < |ops| ==> cuts[i] <= |Given(ops[i])|
    ensures Run(net, b, ops).Log() == b.Log() + AcceptedFrames(ops, cuts)
    ensures AllOk(net, b, ops) ==> forall i :: 0 <= i < |ops| ==> cuts[i] == |Given(ops[i])|
    decreases |ops|
  {
    hide Apply, Given;
    if ops == [] {
      cuts := [];
      assert b.Log() + [] == b.Log();
    } else {
      var k := ApplyConserves(net, b, ops[0]);
      var rest := RunConserves(net, Apply(net, b, ops[0]).0, ops[1..]);
      cuts := [k] + rest;
      assert cuts[1..] == rest;
      assert b.Log() + Given(ops[0])[..k] + AcceptedFrames(ops[1..], rest) == b.Log() + AcceptedFrames(ops, cuts);
    }
  }

  predicate AllOk<F>(net: nat -> Answer, b: Batcher<F>, ops: seq<Op<F>>)
    decreases |ops|
  {
    ops == [] || (Apply(net, b, ops[0]).1.Ok? && AllOk(net, Apply(net, b, ops[0]).0, ops[1..]))
  }

  function AcceptedFrames<F>(ops: seq<Op<F>>, cuts: seq<nat>): seq<F>
    requires |cuts| == |ops| && forall i :: 0 <= i < |ops| ==> cuts[i] <= |Given(ops[i])|
  {
    if ops == [] then [] else Given(ops[0])[..cuts[0]] + AcceptedFrames(ops[1..], cuts[1..])
  }

  // Bounds -------------------------------------------------------------------------------

  /** Every command carries between one frame and a full array of them, so its length fits the
      command's byte-sized length field. */
  ghost predicate Bounded<F>(b: Batcher<F>) {
    && b.Valid()
    && (b.shape != EagerVector ==> forall s :: s in b.sent ==> 1 <= |FramesOf(s)| <= b.cap)
  }

  lemma FlushBounded<F>(net: nat -> Answer, b: Batcher<F>, blocking: bool)
    requires Bounded(b)
    ensures Bounded(Flush(net, b, blocking).0)
    ensures Flush(net, b, blocking).0.cap == b.cap && Flush(net, b, blocking).0.shape == b.shape
    ensures Flush(net, b, blocking).1.Ok? ==> Flush(net, b, blocking).0.buffer == []
  {
  }

  lemma PushBounded<F>(net: nat -> Answer, b: Batcher<F>, f: F, blocking: bool)
    requires Bounded(b)
    ensures Bounded(Push(net, b, f, blocking).0)
  {
    hide Flush;
    FlushBounded(net, b, blocking);
    var b1 := if b.shape == EagerVector then b else FlushIfBrimming(net, b, blocking).0;
    if b.shape == EagerVector || FlushIfBrimming(net, b, blocking).1.Ok? {
      FlushBounded(net, b1.(buffer := b1.buffer + [f]), blocking);
    }
  }

  lemma {:induction false} PushManyBounded<F>(net: nat -> Answer, b: Batcher<F>, fs: seq<F>, blocking: bool)
    requires Bounded(b)
    ensures Bounded(PushMany(net, b, fs, blocking).0)
    decreases |fs|
  {
    hide Push, Bounded;
    if fs != [] {
      PushBounded(net, b, fs[0], blocking);
      PushManyBounded(net, Push(net, b, fs[0], blocking).0, fs[1..], blocking);
    }
  }

  lemma {:induction false} PushSliceBounded<F>(net: nat -> Answer, b: Batcher<F>, fs: seq<F>, blocking: bool)
    requires Bounded(b)
    ensures Bounded(PushSlice(net, b, fs, blocking).0)
    decreases |fs|
  {
    hide Flush;
    if fs != [] {
      FlushBounded(net, b, blocking);
      var (b1, r1) := FlushIfBrimming(net, b, blocking);
      if r1.Ok? {
        var n := Room(b1, |fs|);
        var b2 := b1.(buffer := b1.buffer + fs[..n]);
        FlushBounded(net, b2, blocking);
        var (b3, r2) := FlushIfBrimming(net, b2, blocking);
        if r2.Ok? {
          PushSliceBounded(net, b3, fs[n..], blocking);
        }
      }
    }
  }

  lemma {:induction false} RunBounded<F>(net: nat -> Answer, b: Batcher<F>, ops: seq<Op<F>>)
    requires Bounded(b)
    ensures Bounded(Run(net, b, ops))
    decreases |ops|
  {
    hide Push, PushMany, PushSlice, Flush, Bounded;
    if ops != [] {
      match ops[0] {
        case PushOne(f, blocking) => PushBounded(net, b, f, blocking);
        case PushEach(fs, blocking) => PushManyBounded(net, b, fs, blocking);
        case PushAll(fs, blocking) => PushSliceBounded(net, b, fs, blocking);
        case FlushOp(blocking) => FlushBounded(net, b, blocking);
      }
      RunBounded(net, Apply(net, b, ops[0]).0, ops[1..]);
    }
  }
}
