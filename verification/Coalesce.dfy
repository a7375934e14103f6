/** The coalescing writer as functions on its state (src/coalesce.rs). The transport and the
    clock are oracles: `writeOk(n)` and `flushOk(n)` answer the n-th transport call, `expired(n)`
    answers the n-th reading of the flush window. Lemmas quantify over every oracle. */
module Coalesce {
  import opened Bytes
  import opened Frames
  import opened Messages

  datatype Env = Env(writeOk: nat -> bool, flushOk: nat -> bool, expired: nat -> bool)

  ghost predicate Reliable(e: Env) {
    forall n: nat :: e.writeOk(n) && e.flushOk(n)
  }

  datatype TransportCall = WriteCall | FlushCall

  datatype FlushReason = Pending | Full | Window | Critical

  datatype Writer = Writer(
    direct: bool,
    hardLimit: nat,
    wire: seq<byte>,      // bytes the transport has taken
    calls: nat,           // transport calls made
    made: seq<TransportCall>,
    ticks: nat,           // clock readings made
    pending: seq<byte>,
    pushed: nat, written: nat, flushes: nat)
  {
    ghost predicate Valid() {
      direct ==> pending == []
    }

    function Stream(): seq<byte> {
      wire + pending
    }
  }

  const DIRECT_GAMEPAD_BATCH_FRAMES := 32

  function WithLimits(windowIsZero: bool, hardLimit: nat): (w: Writer)
    ensures w.Valid()
  {
    Writer(hardLimit == 0 && windowIsZero, hardLimit, [], 0, [], 0, [], 0, 0, 0)
  }

  // Transport ----------------------------------------------------------------------------

  function WriteAll(e: Env, w: Writer, bytes: seq<byte>): (Writer, Result<()>) {
    var w1 := w.(calls := w.calls + 1, made := w.made + [WriteCall]);
    if e.writeOk(w.calls) then (w1.(wire := w.wire + bytes), Ok(())) else (w1, Err(WriteFailed(w.calls)))
  }

  function FlushTransport(e: Env, w: Writer): (Writer, Result<()>) {
    (w.(calls := w.calls + 1, made := w.made + [FlushCall]),
     if e.flushOk(w.calls) then Ok(()) else Err(FlushFailed(w.calls)))
  }

  function Account(w: Writer, bytes: nat): Writer {
    w.(written := w.written + bytes, flushes := w.flushes + 1)
  }

  /** write_all, flush, then the counters. */
  function SendNow(e: Env, w: Writer, bytes: seq<byte>): (Writer, Result<()>) {
    var (w1, r1) := WriteAll(e, w, bytes);
    if r1.Err? then (w1, r1)
    else
      var (w2, r2) := FlushTransport(e, w1);
      if r2.Err? then (w2, r2) else (Account(w2, |bytes|), Ok(()))
  }

  /** The pending buffer is cleared only after both the write and the flush succeeded. */
  function FlushNow(e: Env, w: Writer): (Writer, Result<nat>) {
    if w.pending == [] then (w, Ok(0))
    else
      var (w1, r) := SendNow(e, w, w.pending);
      match r
      case Err(x) => (w1, Err(x))
      case Ok(_) => (w1.(pending := []), Ok(|w.pending|))
  }

  // Single pushes ------------------------------------------------------------------------

  function FlushFor(e: Env, w: Writer, reason: FlushReason): (Writer, Result<FlushReason>) {
    var (w1, r) := FlushNow(e, w);
    match r
    case Err(x) => (w1, Err(x))
    case Ok(_) => (w1, Ok(reason))
  }

  /** The window check that ends a push; `otherwise` is reported if it does not flush. */
  function CheckWindow(e: Env, w: Writer, otherwise: FlushReason): (Writer, Result<FlushReason>) {
    var w1 := w.(ticks := w.ticks + 1);
    if e.expired(w.ticks) && w.pending != [] then FlushFor(e, w1, Window) else (w1, Ok(otherwise))
  }

  function Settle(e: Env, w: Writer): (Writer, Result<FlushReason>) {
    if |w.pending| >= w.hardLimit then FlushFor(e, w, Full) else CheckWindow(e, w, Pending)
  }

  function SendFor(e: Env, w: Writer, bytes: seq<byte>, reason: FlushReason): (Writer, Result<FlushReason>) {
    var (w1, r) := SendNow(e, w, bytes);
    match r
    case Err(x) => (w1, Err(x))
    case Ok(_) => (w1, Ok(reason))
  }

  /** push_gamepad_input and push_gamepad_input_fields, on the encoded message. */
  function PushEncoded(e: Env, w: Writer, bytes: seq<byte>): (Writer, Result<FlushReason>) {
    var w1 := w.(pushed := w.pushed + 1);
    if w.direct then SendFor(e, w1, bytes, Window)
    else Settle(e, w1.(pending := w1.pending + bytes))
  }

  function Push(e: Env, w: Writer, m: Msg): (Writer, Result<FlushReason>) {
    var w1 := w.(pushed := w.pushed + 1);
    if w.direct then
      match Serialize(m)
      case Err(x) => (w1, Err(x))
      case Ok(bytes) => SendFor(e, w1, bytes, if m.Critical() then Critical else Window)
    else if m.Critical() then
      var (w2, r) := FlushNow(e, w1);
      match r
      case Err(x) => (w2, Err(x))
      case Ok(_) =>
        match Serialize(m)
        case Err(x) => (w2, Err(x))
        case Ok(bytes) => SendFor(e, w2, bytes, Critical)
    else
      match Serialize(m)
      case Err(x) => (w1, Err(x))
      case Ok(bytes) => Settle(e, w1.(pending := w1.pending + bytes))
  }

  // Batch pushes -------------------------------------------------------------------------

  /** Direct mode: one write per 32 frames, one flush at the end. */
  function DirectChunks(e: Env, w: Writer, parts: seq<seq<byte>>): (Writer, Result<()>)
    decreases |parts|
  {
    if parts == [] then (w, Ok(()))
    else
      var n := Min(|parts|, DIRECT_GAMEPAD_BATCH_FRAMES);
      var (w1, r) := WriteAll(e, w, Concat(parts[..n]));
      if r.Err? then (w1, r) else DirectChunks(e, w1, parts[n..])
  }

  function DirectBatch(e: Env, w: Writer, parts: seq<seq<byte>>): (Writer, Result<FlushReason>) {
    var (w1, r1) := DirectChunks(e, w, parts);
    match r1
    case Err(x) => (w1, Err(x))
    case Ok(_) =>
      var (w2, r2) := FlushTransport(e, w1);
      match r2
      case Err(x) => (w2, Err(x))
      case Ok(_) => (Account(w2, |Concat(parts)|), Ok(Window))
  }

  /** A batch that does not fit: buffer frame by frame, flushing at the limit. */
  function BufferEach(e: Env, w: Writer, parts: seq<seq<byte>>, reason: FlushReason): (Writer, Result<FlushReason>)
    decreases |parts|
  {
    if parts == [] then CheckWindow(e, w, reason)
    else
      var w1 := w.(pending := w.pending + parts[0]);
      if |w1.pending| >= w.hardLimit then
        var (w2, r) := FlushNow(e, w1);
        match r
        case Err(x) => (w2, Err(x))
        case Ok(_) => BufferEach(e, w2, parts[1..], Full)
      else
        BufferEach(e, w1, parts[1..], reason)
  }

  function PushBatch(e: Env, w: Writer, parts: seq<seq<byte>>): (Writer, Result<FlushReason>) {
    if parts == [] then (w, Ok(Pending))
    else if |parts| == 1 then PushEncoded(e, w, parts[0])
    else
      var w1 := w.(pushed := w.pushed + |parts|);
      if w.direct then DirectBatch(e, w1, parts)
      else if |w.pending| + |parts| * GAMEPAD_MESSAGE_BYTES <= w.hardLimit then
        CheckWindow(e, w1.(pending := w1.pending + Concat(parts)), Pending)
      else BufferEach(e, w1, parts, Pending)
  }

  // Runs ---------------------------------------------------------------------------------

  /** The writer's entry points. */
  datatype Op =
    | PushMessage(msg: Msg)
    | PushPacked(packedId: u16, payload: Payload)
    | PushFields(fieldsId: u16, frame: PadFrame)
    | PushRaw(rawId: u16, size: u16, data: seq<byte>)
    | PushPackedBatch(batchId: u16, payloads: seq<Payload>)
    | PushFieldsBatch(framesId: u16, frames: seq<PadFrame>)
    | Flush

  function Apply(e: Env, w: Writer, op: Op): (Writer, Result<FlushReason>) {
    match op
    case PushMessage(m) => Push(e, w, m)
    case PushPacked(id, p) => PushEncoded(e, w, InputMessage(id, p))
    case PushFields(id, f) => PushEncoded(e, w, InputMessage(id, Pack(f)))
    case PushRaw(id, size, data) => Push(e, w, UhidInput(id, size, data))
    case PushPackedBatch(id, ps) => PushBatch(e, w, InputMessages(id, ps))
    case PushFieldsBatch(id, fs) => PushBatch(e, w, InputMessages(id, PackAll(fs)))
    case Flush => FlushFor(e, w, if w.pending == [] then Pending else Window)
  }

  /** The messages an operation asks to send: the simple thing the writer refines. */
  function Requested(op: Op): seq<seq<byte>> {
    match op
    case PushMessage(m) => if Serialize(m).Ok? then [Encoding(m)] else []
    case PushPacked(id, p) => [InputMessage(id, p)]
    case PushFields(id, f) => [InputMessage(id, Pack(f))]
    case PushRaw(id, size, data) =>
      var m := UhidInput(id, size, data);
      if Serialize(m).Ok? then [Encoding(m)] else []
    case PushPackedBatch(id, ps) => InputMessages(id, ps)
    case PushFieldsBatch(id, fs) => InputMessages(id, PackAll(fs))
    case Flush => []
  }

  predicate Acceptable(op: Op) {
    match op
    case PushMessage(m) => Serialize(m).Ok?
    case PushRaw(id, size, data) => Serialize(UhidInput(id, size, data)).Ok?
    case _ => true
  }

  function Run(e: Env, w: Writer, ops: seq<Op>): Writer
    decreases |ops|
  {
    if ops == [] then w else Run(e, Apply(e, w, ops[0]).0, ops[1..])
  }

  /** Recover the transport: flush, then hand over what it has taken. */
  function IntoInner(e: Env, w: Writer): Result<seq<byte>> {
    var (w1, r) := FlushNow(e, w);
    match r
    case Err(x) => Err(x)
    case Ok(_) => Ok(w1.wire)
  }
}
