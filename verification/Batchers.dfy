/** The client's frame batchers in channel mode (src/client.rs) as functions on their state. The
    channel is an oracle: `net(n)` answers the n-th send this batcher attempts. */
module Batchers {
  import opened Bytes

  const TOUCH_BATCH_FRAMES := 24
  const LAZY_BATCH_FRAMES := 32
  const FIXED_BATCH_FRAMES := 32

  type Capacity = n: nat | n > 0 witness 1

  datatype Answer = Accepted | Full | Disconnected

  /** Touch and the other fixed batchers flush when a push finds them full; the gamepad batchers
      flush as soon as they fill, from a fixed array or from a vector. */
  datatype Shape = TouchShape | LazyShape | EagerFixed | EagerVector

  /** A channel command: a single frame takes the single-frame command, except for touches. */
  datatype Sent<F> = One(frame: F) | Batch(frames: seq<F>)

  function FramesOf<F>(s: Sent<F>): seq<F> {
    match s
    case One(f) => [f]
    case Batch(fs) => fs
  }

  function SentFrames<F>(sent: seq<Sent<F>>): seq<F> {
    if sent == [] then [] else SentFrames(sent[..|sent| - 1]) + FramesOf(sent[|sent| - 1])
  }

  datatype Batcher<F> = Batcher(shape: Shape, cap: Capacity, buffer: seq<F>, sent: seq<Sent<F>>, sends: nat)
  {
    /** Everything the caller handed over, in order: sent first, then still buffered. */
    function Log(): seq<F> {
      SentFrames(sent) + buffer
    }

    predicate Valid() {
      shape != EagerVector ==> |buffer| <= cap
    }

    predicate Brimming() {
      |buffer| >= cap
    }
  }

  function CapacityOf(shape: Shape, batchSize: nat): Capacity
  {
    match shape
    case TouchShape => TOUCH_BATCH_FRAMES
    case LazyShape => LAZY_BATCH_FRAMES
    case _ => if batchSize < 1 then 1 else batchSize
  }

  /** A gamepad batcher of the requested size: fixed if it fits the fixed array. */
  function EagerShape(batchSize: nat): Shape {
    if CapacityOf(EagerFixed, batchSize) <= FIXED_BATCH_FRAMES then EagerFixed else EagerVector
  }

  function New<F>(shape: Shape, batchSize: nat): (b: Batcher<F>)
    ensures b.Valid() && b.Log() == []
  {
    Batcher(shape, CapacityOf(shape, batchSize), [], [], 0)
  }

  // Operations ---------------------------------------------------------------------------

  /** A blocking send waits for room, so it can only find the channel disconnected. */
  function Refusal(a: Answer, blocking: bool): Option<Error> {
    match a
    case Accepted => None
    case Full => if blocking then None else Some(ChannelFull)
    case Disconnected => Some(DispatcherDown)
  }

  function CommandFor<F>(b: Batcher<F>): Sent<F>
    requires b.buffer != []
  {
    if |b.buffer| == 1 && b.shape != TouchShape then One(b.buffer[0]) else Batch(b.buffer)
  }

  function Flush<F>(net: nat -> Answer, b: Batcher<F>, blocking: bool): (Batcher<F>, Result<()>) {
    if b.buffer == [] then (b, Ok(()))
    else
      match Refusal(net(b.sends), blocking)
      case Some(x) => (b.(sends := b.sends + 1), Err(x))
      case None => (b.(sends := b.sends + 1, sent := b.sent + [CommandFor(b)], buffer := []), Ok(()))
  }

  function FlushIfBrimming<F>(net: nat -> Answer, b: Batcher<F>, blocking: bool): (Batcher<F>, Result<()>) {
    if b.Brimming() then Flush(net, b, blocking) else (b, Ok(()))
  }

  function Push<F>(net: nat -> Answer, b: Batcher<F>, f: F, blocking: bool): (Batcher<F>, Result<()>) {
    var (b1, r) := if b.shape == EagerVector then (b, Ok(())) else FlushIfBrimming(net, b, blocking);
    if r.Err? then (b1, r)
    else
      var b2 := b1.(buffer := b1.buffer + [f]);
      if b.shape == TouchShape || b.shape == LazyShape then (b2, Ok(())) else FlushIfBrimming(net, b2, blocking)
  }

  function PushMany<F>(net: nat -> Answer, b: Batcher<F>, fs: seq<F>, blocking: bool): (Batcher<F>, Result<()>)
    decreases |fs|
  {
    if fs == [] then (b, Ok(()))
    else
      var (b1, r) := Push(net, b, fs[0], blocking);
      if r.Err? then (b1, r) else PushMany(net, b1, fs[1..], blocking)
  }

  function Room<F>(b: Batcher<F>, count: nat): (n: nat)
    requires !b.Brimming()
    ensures n <= count && (count > 0 ==> n > 0)
  {
    if count < b.cap - |b.buffer| then count else b.cap - |b.buffer|
  }

  /** Fill, flush, repeat: every shape's slice push also flushes when it ends up full. */
  function PushSlice<F>(net: nat -> Answer, b: Batcher<F>, fs: seq<F>, blocking: bool): (Batcher<F>, Result<()>)
    decreases |fs|
  {
    if fs == [] then (b, Ok(()))
    else
      var (b1, r1) := FlushIfBrimming(net, b, blocking);
      if r1.Err? then (b1, r1)
      else
        var n := Room(b1, |fs|);
        var (b2, r2) := FlushIfBrimming(net, b1.(buffer := b1.buffer + fs[..n]), blocking);
        if r2.Err? then (b2, r2) else PushSlice(net, b2, fs[n..], blocking)
  }

  datatype Op<F> =
    | PushOne(frame: F, wait1: bool)
    | PushEach(each: seq<F>, waitN: bool)
    | PushAll(slice: seq<F>, waitS: bool)
    | FlushOp(waitF: bool)

  function Apply<F>(net: nat -> Answer, b: Batcher<F>, op: Op<F>): (Batcher<F>, Result<()>)
  {
    match op
    case PushOne(f, blocking) => Push(net, b, f, blocking)
    case PushEach(fs, blocking) => PushMany(net, b, fs, blocking)
    case PushAll(fs, blocking) => PushSlice(net, b, fs, blocking)
    case FlushOp(blocking) => Flush(net, b, blocking)
  }

  function Given<F>(op: Op<F>): seq<F> {
    match op
    case PushOne(f, _) => [f]
    case PushEach(fs, _) => fs
    case PushAll(fs, _) => fs
    case FlushOp(_) => []
  }

  function Run<F>(net: nat -> Answer, b: Batcher<F>, ops: seq<Op<F>>): Batcher<F>
    decreases |ops|
  {
    if ops == [] then b else Run(net, Apply(net, b, ops[0]).0, ops[1..])
  }
}
