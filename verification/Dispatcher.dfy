/** The dispatcher as functions (src/client.rs): commands in channel order, the first pending
    error, flush barriers and shutdown. */
module Dispatchers {
  import opened Bytes
  import opened Frames
  import opened Messages
  import opened Sessions
  import C = Coalesce

  /** Channel commands. `Single` stands for every command that makes one single-message session
      call; `FixedBatch` for the fixed key, mouse, Android-key, touch and scroll batches. */
  datatype Cmd =
    | Single(item: Item)
    | FixedBatch(items: seq<Item>)
    | FrameBatch(frames: seq<PadFrame>)
    | FrameBatchUnchecked(raw: seq<PadFrame>)
    | PackedBatch(payloads: seq<Payload>)
    | Text(text: seq<char>, strict: bool)
    | Tap(scancode: byte, mods: byte)
    | AndroidTap(keycode: u32, metastate: u32)
    | SetScreenSize(width: u16, height: u16)
    | Flush
    | FlushAck(ticket: nat)
    | Close

  datatype Ack = Ack(ticket: nat, result: Result<nat>)

  datatype Dispatcher = Dispatcher(
    session: Session, pendingError: Option<Error>, acks: seq<Ack>, stopped: bool)

  function Start(s: Session): Dispatcher {
    Dispatcher(s, None, [], false)
  }

  function ErrorsIn<T>(r: Result<T>): (errors: seq<Error>)
    ensures |errors| <= 1
  {
    if r.Err? then [r.error] else []
  }

  /** record_first_error, over the results of one command. */
  function Record(pending: Option<Error>, errors: seq<Error>): Option<Error> {
    if pending.Some? || errors == [] then pending else Some(errors[0])
  }

  /** The loop of a fixed batch: every frame is performed, whatever the others did. */
  function PerformEach(e: C.Env, s: Session, items: seq<Item>): (Session, seq<Error>)
    decreases |items|
  {
    if items == [] then (s, [])
    else
      var (s1, r) := Perform(e, s, items[0]);
      var (s2, rest) := PerformEach(e, s1, items[1..]);
      (s2, ErrorsIn(r) + rest)
  }

  /** A command's effect on the session and the errors it records, in order. */
  function Execute(e: C.Env, s: Session, cmd: Cmd): (Session, seq<Error>) {
    match cmd
    case Single(it) => var (s1, r) := Perform(e, s, it); (s1, ErrorsIn(r))
    case FixedBatch(items) => PerformEach(e, s, items)
    case FrameBatch(frames) => var (s1, r) := SetFrameRawBatch(e, s, frames); (s1, ErrorsIn(r))
    case FrameBatchUnchecked(frames) => var (s1, r) := SetFrameRawBatchUnchecked(e, s, frames); (s1, ErrorsIn(r))
    case PackedBatch(payloads) => var (s1, r) := SetPackedBatch(e, s, payloads); (s1, ErrorsIn(r))
    case Text(text, strict) => var (s1, r) := RunScript(e, s, TypeText(text, strict)); (s1, ErrorsIn(r))
    case Tap(scancode, mods) => var (s1, r) := RunScript(e, s, KeyTap(scancode, mods)); (s1, ErrorsIn(r))
    case AndroidTap(k, m) => var (s1, r) := RunScript(e, s, AndroidKeyTap(k, m)); (s1, ErrorsIn(r))
    case SetScreenSize(w, h) => (s.(dev := s.dev.(screenW := w, screenH := h)), [])
    case Flush => var (s1, r) := FlushSession(e, s); (s1, ErrorsIn(r))
    case FlushAck(_) => (FlushSession(e, s).0, [])
    case Close => (CloseAll(e, s).0, [])
  }

  function FlushSession(e: C.Env, s: Session): (Session, Result<nat>) {
    var (w, r) := C.FlushNow(e, s.writer);
    (s.(writer := w), r)
  }

  /** A barrier answers with the pending error if there is one, keeping a flush error for later. */
  function Answer(pending: Option<Error>, flushed: Result<nat>): (Result<nat>, Option<Error>) {
    match pending
    case None => (flushed, None)
    case Some(x) => (Err(x), if flushed.Err? then Some(flushed.error) else None)
  }

  function Dispatch(e: C.Env, d: Dispatcher, cmd: Cmd): Dispatcher {
    var (s, errors) := Execute(e, d.session, cmd);
    match cmd
    case Close => d.(session := s, stopped := true)
    case FlushAck(ticket) =>
      var (result, kept) := Answer(d.pendingError, FlushSession(e, d.session).1);
      Dispatcher(s, kept, d.acks + [Ack(ticket, result)], false)
    case _ => d.(session := s, pendingError := Record(d.pendingError, errors))
  }

  /** Commands in order until a Close; what is queued behind a Close is never looked at. */
  function DispatchAll(e: C.Env, d: Dispatcher, cmds: seq<Cmd>): Dispatcher
    decreases |cmds|
  {
    if d.stopped || cmds == [] then d else DispatchAll(e, Dispatch(e, d, cmds[0]), cmds[1..])
  }

  /** The thread's result: the transport, or a panic because the session would not close or the
      last bytes would not flush. */
  datatype Joined = Recovered(wire: seq<byte>) | Panicked

  function Join(e: C.Env, s: Session): Joined {
    if !s.dev.closed then Panicked
    else match C.IntoInner(e, s.writer)
         case Err(_) => Panicked
         case Ok(wire) => Recovered(wire)
  }

  /** The dispatcher thread: a Close ends it, and so does a disconnected channel. */
  function DispatcherThread(e: C.Env, s: Session, cmds: seq<Cmd>): Joined {
    var d := DispatchAll(e, Start(s), cmds);
    Join(e, if d.stopped then d.session else CloseAll(e, d.session).0)
  }
}
