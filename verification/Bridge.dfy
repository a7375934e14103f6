/** The action bridge (ai-device-kernel/src/bridge.rs) as functions on its state: one action at a
    time, or a chunk staged into the coalescing writer and flushed once. */
module Bridge {
  import opened Bytes
  import opened Frames
  import opened Messages
  import opened Sessions
  import opened SessionLaws
  import opened Actions
  import D = Dispatchers
  import DL = DispatcherLaws
  import C = Coalesce
  import L = CoalesceLaws

  datatype BridgeOutcome = BridgeOutcome(id: u64, landed: bool, code: Option<AtomicErrorCode>)

  datatype Injector = Injector(session: Session, nextId: u64, batchDepth: u32)

  function Classify(x: Error): AtomicErrorCode {
    match x
    case ControlMessageTooLarge => PermissionDenied
    case NameTooLong => PermissionDenied
    case ReportDescTooLong => PermissionDenied
    case ScancodeOutOfRange => PermissionDenied
    case PointerIdOutOfRange(_) => PermissionDenied
    case UnsupportedChar => PermissionDenied
    case WriteFailed(_) => KernelError
    case FlushFailed(_) => KernelError
    case _ => NotImplemented
  }

  // Actions as inputs --------------------------------------------------------------------

  /** i32 subtraction wraps. */
  function WrappingSub32(a: i32, b: i32): i32 {
    var d := a - b;
    if d >= 0x8000_0000 then d - 0x1_0000_0000 else if d < -0x8000_0000 then d + 0x1_0000_0000 else d
  }

  function Abs(v: int): nat {
    if v < 0 then -v else v
  }

  /** One sample per 16 ms or per 40 pixels, whichever is denser, between 2 and 256. */
  function SwipeSteps(x1: i32, y1: i32, x2: i32, y2: i32, durMs: u32): (n: nat)
    ensures 2 <= n <= 256
  {
    var distance := Max(Abs(WrappingSub32(x2, x1)), Abs(WrappingSub32(y2, y1)));
    Min(Max(Max(durMs / 16, distance / 40), 2), 256)
  }

  function SwipeMoves(lerp: Lerp, x1: i32, y1: i32, x2: i32, y2: i32, i: nat, steps: nat): seq<Item>
    decreases steps - i
  {
    if i >= steps then [Touch(ACTION_MOVE, 0, x2, y2, FULL_PRESSURE), Touch(ACTION_UP, 0, x2, y2, 0)]
    else
      [Touch(ACTION_MOVE, 0, lerp(x1, x2, i, steps), lerp(y1, y2, i, steps), FULL_PRESSURE)]
      + SwipeMoves(lerp, x1, y1, x2, y2, i + 1, steps)
  }

  /** What an action asks of the session; None if the bridge does not serve it. */
  function Work(lerp: Lerp, a: Action): Option<Script> {
    match a
    case Tap(x, y) =>
      Some(Script([Touch(ACTION_DOWN, 0, x, y, FULL_PRESSURE), Touch(ACTION_UP, 0, x, y, 0)], None))
    case Swipe(x1, y1, x2, y2, dur) =>
      Some(Script([Touch(ACTION_DOWN, 0, x1, y1, FULL_PRESSURE)]
                  + SwipeMoves(lerp, x1, y1, x2, y2, 1, SwipeSteps(x1, y1, x2, y2, dur)), None))
    case TypeText(text) => Some(Sessions.TypeText(text, true))
    case Key(code) => Some(AndroidKeyTap(code, 0))
    case GamepadFrame(report) => Some(Script([PadRawReport(report)], None))
    case Launch(target) => Some(Script([Control(StartApp(target))], None))
    case SetClipboard(text, paste) => Some(Script([Control(Plain.SetClipboard(0, paste, text))], None))
    case InjectRaw(bytes) => Some(Script([PadRawReport(bytes)], None))
    case DumpObservation(_, _) => None
    case Elsewhere(_) => None
  }

  // Calls --------------------------------------------------------------------------------

  function Rejected(id: u64, x: Error): BridgeOutcome {
    BridgeOutcome(id, false, Some(Classify(x)))
  }

  function NextId(id: u64): u64 {
    if id == U64_MAX then 0 else id + 1
  }

  function MaybeFlush(e: C.Env, inj: Injector): (Injector, Option<Error>) {
    if inj.batchDepth == 0 then
      var (s, r) := D.FlushSession(e, inj.session);
      (inj.(session := s), if r.Err? then Some(r.error) else None)
    else (inj, None)
  }

  function ApplyOne(e: C.Env, lerp: Lerp, inj: Injector, a: Action): (Injector, BridgeOutcome) {
    var id := inj.nextId;
    var inj1 := inj.(nextId := NextId(id));
    match Work(lerp, a)
    case None => (inj1, BridgeOutcome(id, false, Some(NotImplemented)))
    case Some(script) =>
      var (s, r) := RunScript(e, inj1.session, script);
      if r.Err? then (inj1.(session := s), Rejected(id, r.error))
      else
        var (inj2, x) := MaybeFlush(e, inj1.(session := s));
        (inj2, if x.Some? then Rejected(id, x.value) else BridgeOutcome(id, true, None))
  }

  /** The loop of apply_many: up to and including the first failure. */
  function ApplyUntilFailure(e: C.Env, lerp: Lerp, inj: Injector, actions: seq<Action>): (Injector, seq<BridgeOutcome>)
    decreases |actions|
  {
    if actions == [] then (inj, [])
    else
      var (inj1, o) := ApplyOne(e, lerp, inj, actions[0]);
      if !o.landed then (inj1, [o])
      else
        var (inj2, rest) := ApplyUntilFailure(e, lerp, inj1, actions[1..]);
        (inj2, [o] + rest)
  }

  function FailureOf(outcomes: seq<BridgeOutcome>): Option<nat> {
    if outcomes != [] && !outcomes[|outcomes| - 1].landed then Some(|outcomes| - 1) else None
  }

  function ApplyMany(e: C.Env, lerp: Lerp, inj: Injector, actions: seq<Action>)
    : (Injector, seq<BridgeOutcome>, Option<nat>)
  {
    var deeper := inj.(batchDepth := if inj.batchDepth == U32_MAX then U32_MAX else inj.batchDepth + 1);
    var (inj1, outcomes) := ApplyUntilFailure(e, lerp, deeper, actions);
    var inj2 := inj1.(batchDepth := if inj1.batchDepth == 0 then 0 else inj1.batchDepth - 1);
    var failure := FailureOf(outcomes);
    if inj2.batchDepth != 0 then (inj2, outcomes, failure)
    else
      var (s, r) := D.FlushSession(e, inj2.session);
      var inj3 := inj2.(session := s);
      if r.Err? && failure == None then
        (inj3, outcomes + [Rejected(U64_MAX, r.error)], Some(|outcomes|))
      else (inj3, outcomes, failure)
  }

  /** The reference: one action at a time, each flushed on its own. */
  function ApplyEach(e: C.Env, lerp: Lerp, inj: Injector, actions: seq<Action>): (Injector, seq<BridgeOutcome>)
    decreases |actions|
  {
    if actions == [] then (inj, [])
    else
      var (inj1, o) := ApplyOne(e, lerp, inj, actions[0]);
      var (inj2, rest) := ApplyEach(e, lerp, inj1, actions[1..]);
      (inj2, [o] + rest)
  }
}
