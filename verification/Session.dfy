/** The HID session as functions on its state (src/session.rs, with the report builders of
    src/hid/). A session is its device state plus its coalescing writer. */
module Sessions {
  import opened Bytes
  import opened Frames
  import opened Messages
  import opened Typing
  import C = Coalesce

  const HID_ID_KEYBOARD: u16 := 1
  const HID_ID_MOUSE: u16 := 2
  const HID_ID_GAMEPAD: u16 := 3

  const ACTION_DOWN: byte := 0
  const ACTION_UP: byte := 1
  const ACTION_MOVE: byte := 2
  const ACTION_CANCEL: byte := 3

  const FULL_PRESSURE: u16 := 0xFFFF

  /** Single-precision interpolation, left open: `lerp(from, to, i, steps)`. */
  type Lerp = (i32, i32, nat, nat) -> i32

  // Devices ------------------------------------------------------------------------------

  /** The keyboard remembers which ordinary keys are down. */
  datatype Kbd = Kbd(held: set<byte>)

  const KEYBOARD_MAX_KEYS := 6

  function HeldFrom(held: set<byte>, from: nat): seq<byte>
    decreases 0x66 - from
  {
    if from > 0x65 then []
    else (if from in held then [from as byte] else []) + HeldFrom(held, from + 1)
  }

  /** Modifiers, a reserved byte, then up to six keys, or six roll-over codes. */
  function KeyReport(held: set<byte>, mods: byte): seq<byte> {
    var keys := HeldFrom(held, 0);
    if |keys| > KEYBOARD_MAX_KEYS then [mods, 0, 1, 1, 1, 1, 1, 1]
    else [mods, 0] + keys + Zeros(KEYBOARD_MAX_KEYS - |keys|)
  }

  function Zeros(n: nat): (r: seq<byte>)
    ensures |r| == n
  {
    seq(n, _ => 0)
  }

  function InputFrom(id: u16, report: seq<byte>): Msg
    requires |report| <= 15
  {
    UhidInput(id, |report|, report + Zeros(15 - |report|))
  }

  predicate IsModifier(scancode: byte) {
    0xE0 <= scancode <= 0xE7
  }

  function PressKey(k: Kbd, scancode: byte, pressed: bool): Kbd {
    if scancode > 0x65 then k
    else if pressed then Kbd(k.held + {scancode})
    else Kbd(k.held - {scancode})
  }

  function ClampI8(v: i32): byte {
    var c := Max(-127, Min(127, v));
    if c < 0 then c + 0x100 else c
  }

  function MouseReport(dx: i32, dy: i32, buttons: byte): seq<byte> {
    [buttons % 32, ClampI8(dx), ClampI8(dy), 0, 0]
  }

  /** The gamepad driver's slot; `bound` is cleared when its UHID_DESTROY is built. */
  datatype Pad = Pad(slot: Slot, bound: bool)

  datatype Devices = Devices(
    kbd: Option<Kbd>, mouse: bool, pad: Option<Pad>, closed: bool, screenW: u16, screenH: u16)

  // Inputs -------------------------------------------------------------------------------

  /** One input sample: what one single-message session call sends. */
  datatype Item =
    | KeyEdge(scancode: byte, pressed: bool, mods: byte)
    | MouseMotion(dx: i32, dy: i32, mouseButtons: byte)
    | MouseButtons(state: byte)
    | AndroidKey(action: byte, keycode: u32, repeat: u32, metastate: u32)
    | Touch(touch: byte, pointerId: u64, x: i32, y: i32, pressure: u16)
    | Scroll(sx: i32, sy: i32, hscroll: u16, vscroll: u16, buttons: u32)
    | PadDeduped(frame: PadFrame)
    | PadUnchecked(raw: PadFrame)
    | PadPacked(payload: Payload)
    | PadRawReport(report: seq<byte>)
    | Control(plain: Plain)

  function PadReady(d: Devices): Result<Pad> {
    if d.closed then Err(SessionClosed)
    else match d.pad
         case None => Err(GamepadNotOpen)
         case Some(p) => Ok(p)
  }

  /** The device state after an input, and the message it produces (None: suppressed). */
  function Plan(d: Devices, it: Item): (Devices, Result<Option<Msg>>) {
    match it
    case KeyEdge(scancode, pressed, mods) =>
      (match d.kbd
       case None => (d, Err(KeyboardNotOpen))
       case Some(k) =>
         if scancode > 0x65 && !IsModifier(scancode) then (d, Err(ScancodeOutOfRange))
         else
           var k1 := PressKey(k, scancode, pressed);
           (d.(kbd := Some(k1)), Ok(Some(KeyMessage(k1, mods)))))
    case MouseMotion(dx, dy, b) =>
      if !d.mouse then (d, Err(MouseNotOpen)) else (d, Ok(Some(InputFrom(HID_ID_MOUSE, MouseReport(dx, dy, b)))))
    case MouseButtons(b) =>
      if !d.mouse then (d, Err(MouseNotOpen)) else (d, Ok(Some(InputFrom(HID_ID_MOUSE, MouseReport(0, 0, b)))))
    case AndroidKey(a, k, r, m) => (d, Ok(Some(Other(InjectKeycode(a, k, r, m)))))
    case Touch(a, id, x, y, p) => (d, Ok(Some(Other(InjectTouch(a, id, x, y, d.screenW, d.screenH, p)))))
    case Scroll(x, y, h, v, b) => (d, Ok(Some(Other(InjectScroll(x, y, d.screenW, d.screenH, h, v, b)))))
    case PadDeduped(f) =>
      (match PadReady(d)
       case Err(x) => (d, Err(x))
       case Ok(pad) =>
         var (slot, report) := FullState(pad.slot, f);
         var d1 := d.(pad := Some(pad.(slot := slot)));
         match report
         case None => (d1, Ok(None))
         case Some(p) => (d1, Ok(Some(UhidInput(HID_ID_GAMEPAD, 15, p)))))
    case PadUnchecked(f) =>
      (match PadReady(d)
       case Err(x) => (d, Err(x))
       case Ok(_) => (d, Ok(Some(UhidInput(HID_ID_GAMEPAD, 15, Pack(f))))))
    case PadPacked(p) =>
      (match PadReady(d)
       case Err(x) => (d, Err(x))
       case Ok(_) => (d, Ok(Some(UhidInput(HID_ID_GAMEPAD, 15, p)))))
    case PadRawReport(report) =>
      if report == [] then (d, Err(RawReportEmpty))
      else if |report| > HID_MAX_SIZE then (d, Err(ControlMessageTooLarge))
      else (match PadReady(d)
            case Err(x) => (d, Err(x))
            case Ok(_) => (d, Ok(Some(UhidInput(HID_ID_GAMEPAD, |report|, report)))))
    case Control(p) => (d, Ok(Some(Other(p))))
  }

  function KeyMessage(k: Kbd, mods: byte): Msg {
    var report := KeyReport(k.held, mods);
    InputFrom(HID_ID_KEYBOARD, report)
  }

  // Calls --------------------------------------------------------------------------------

  datatype Session = Session(dev: Devices, writer: C.Writer)

  function Send(e: C.Env, s: Session, m: Msg): (Session, Result<()>) {
    var (w, r) := C.Push(e, s.writer, m);
    (s.(writer := w), if r.Err? then Err(r.error) else Ok(()))
  }

  function Perform(e: C.Env, s: Session, it: Item): (Session, Result<()>) {
    var (d, p) := Plan(s.dev, it);
    var s1 := s.(dev := d);
    match p
    case Err(x) => (s1, Err(x))
    case Ok(None) => (s1, Ok(()))
    case Ok(Some(m)) => Send(e, s1, m)
  }

  /** A call made of several inputs stops at the first that fails; `ending` is the error of a
      call that gives up after its inputs. */
  datatype Script = Script(items: seq<Item>, ending: Option<Error>)

  function RunItems(e: C.Env, s: Session, items: seq<Item>): (Session, Result<()>)
    decreases |items|
  {
    if items == [] then (s, Ok(()))
    else
      var (s1, r) := Perform(e, s, items[0]);
      if r.Err? then (s1, r) else RunItems(e, s1, items[1..])
  }

  function RunScript(e: C.Env, s: Session, script: Script): (Session, Result<()>) {
    var (s1, r) := RunItems(e, s, script.items);
    if r.Err? then (s1, r)
    else match script.ending
         case None => (s1, Ok(()))
         case Some(x) => (s1, Err(x))
  }

  function KeyTap(scancode: byte, mods: byte): Script {
    Script([KeyEdge(scancode, true, mods), KeyEdge(scancode, false, 0)], None)
  }

  function AndroidKeyTap(keycode: u32, metastate: u32): Script {
    Script([AndroidKey(ACTION_DOWN, keycode, 0, metastate), AndroidKey(ACTION_UP, keycode, 0, metastate)], None)
  }

  /** Two edges per character; an unsupported character is skipped, or ends a strict call. */
  function TypeText(text: seq<char>, strict: bool): Script {
    if text == [] then Script([], None)
    else
      match StrokeOf(text[0])
      case None => if strict then Script([], Some(UnsupportedChar)) else TypeText(text[1..], strict)
      case Some(k) =>
        var rest := TypeText(text[1..], strict);
        Script([KeyEdge(k.scancode, true, k.mods), KeyEdge(k.scancode, false, k.mods)] + rest.items, rest.ending)
  }

  // Gamepad batches ----------------------------------------------------------------------

  /** The deduplicating batch: reports are staged and pushed 32 at a time, so a failed push leaves
      the later frames unseen. `sent` counts the reports produced. */
  function DedupeFrom(
    e: C.Env, w: C.Writer, slot: Slot, staged: seq<Payload>, sent: nat, frames: seq<PadFrame>)
    : (C.Writer, Slot, Result<nat>)
    decreases |frames|
  {
    if frames == [] then
      if staged == [] then (w, slot, Ok(sent))
      else
        var (w1, r) := C.PushBatch(e, w, InputMessages(HID_ID_GAMEPAD, staged));
        (w1, slot, if r.Err? then Err(r.error) else Ok(sent))
    else
      var (slot1, report) := FullState(slot, frames[0]);
      match report
      case None => DedupeFrom(e, w, slot1, staged, sent, frames[1..])
      case Some(p) =>
        var staged1 := staged + [p];
        if |staged1| == C.DIRECT_GAMEPAD_BATCH_FRAMES then
          var (w1, r) := C.PushBatch(e, w, InputMessages(HID_ID_GAMEPAD, staged1));
          if r.Err? then (w1, slot1, Err(r.error)) else DedupeFrom(e, w1, slot1, [], sent + 1, frames[1..])
        else DedupeFrom(e, w, slot1, staged1, sent + 1, frames[1..])
  }

  function SetFrameRawBatch(e: C.Env, s: Session, frames: seq<PadFrame>): (Session, Result<nat>) {
    if frames == [] then (s, Ok(0))
    else
      match PadReady(s.dev)
      case Err(x) => (s, Err(x))
      case Ok(pad) =>
        var (w, slot, r) := DedupeFrom(e, s.writer, pad.slot, [], 0, frames);
        (Session(s.dev.(pad := Some(pad.(slot := slot))), w), r)
  }

  function SetPackedBatch(e: C.Env, s: Session, payloads: seq<Payload>): (Session, Result<nat>) {
    if payloads == [] then (s, Ok(0))
    else
      match PadReady(s.dev)
      case Err(x) => (s, Err(x))
      case Ok(_) =>
        var (w, r) := C.PushBatch(e, s.writer, InputMessages(HID_ID_GAMEPAD, payloads));
        (s.(writer := w), if r.Err? then Err(r.error) else Ok(|payloads|))
  }

  function SetFrameRawBatchUnchecked(e: C.Env, s: Session, frames: seq<PadFrame>): (Session, Result<nat>) {
    SetPackedBatch(e, s, PackAll(frames))
  }

  // Lifecycle ----------------------------------------------------------------------------

  type Descriptor = d: seq<byte> | |d| <= 0xFFFF witness []
  type DeviceName = n: seq<byte> | |n| <= 127 witness []

  /** What to open, and the fixed identity data of the drivers. */
  datatype OpenRequest = OpenRequest(
    kbd: bool, mouse: bool, pad: bool,
    coalesce: bool, windowIsZero: bool, hardLimit: nat,
    kbdDesc: Descriptor, mouseDesc: Descriptor, padDesc: Descriptor, padName: DeviceName)

  function CreateKeyboard(q: OpenRequest): Msg {
    UhidCreate(HID_ID_KEYBOARD, 0, 0, [], q.kbdDesc)
  }

  function CreateMouse(q: OpenRequest): Msg {
    UhidCreate(HID_ID_MOUSE, 0, 0, [], q.mouseDesc)
  }

  function CreateGamepad(q: OpenRequest): Msg {
    UhidCreate(HID_ID_GAMEPAD, 0x045e, 0x028e, q.padName, q.padDesc)
  }

  function OpenWriter(q: OpenRequest): C.Writer {
    if q.coalesce && !q.windowIsZero then C.WithLimits(false, if q.hardLimit < 1 then 1 else q.hardLimit)
    else C.WithLimits(true, 0)
  }

  const NO_DEVICES := Devices(None, false, None, false, 1080, 1920)

  function Unit(s: Session): (Session, Result<()>) {
    (s, Ok(()))
  }

  function OpenKeyboard(e: C.Env, q: OpenRequest, s: Session): (Session, Result<()>) {
    if !q.kbd then Unit(s)
    else
      var (s1, r) := Send(e, s, CreateKeyboard(q));
      if r.Err? then (s1, r) else Unit(s1.(dev := s1.dev.(kbd := Some(Kbd({})))))
  }

  function OpenMouse(e: C.Env, q: OpenRequest, s: Session): (Session, Result<()>) {
    if !q.mouse then Unit(s)
    else
      var (s1, r) := Send(e, s, CreateMouse(q));
      if r.Err? then (s1, r) else Unit(s1.(dev := s1.dev.(mouse := true)))
  }

  function OpenGamepad(e: C.Env, q: OpenRequest, s: Session): (Session, Result<()>) {
    if !q.pad then Unit(s)
    else
      var (s1, r) := Send(e, s, CreateGamepad(q));
      if r.Err? then (s1, r) else Unit(s1.(dev := s1.dev.(pad := Some(Pad(FRESH_SLOT, true)))))
  }

  /** One UHID_CREATE per requested device; a failure leaves the session to be dropped. */
  function OpenDevices(e: C.Env, q: OpenRequest): (Session, Result<()>) {
    var (s1, r1) := OpenKeyboard(e, q, Session(NO_DEVICES, OpenWriter(q)));
    if r1.Err? then (s1, r1)
    else
      var (s2, r2) := OpenMouse(e, q, s1);
      if r2.Err? then (s2, r2) else OpenGamepad(e, q, s2)
  }

  /** Opening: on failure the dropped session closes what was opened and flushes. */
  function Open(e: C.Env, q: OpenRequest): (Session, Result<()>) {
    var (s, r) := OpenDevices(e, q);
    if r.Ok? then (s, r) else (DropSession(e, s), r)
  }

  function CloseKeyboard(e: C.Env, s: Session): (Session, Result<()>) {
    if s.dev.kbd == None then Unit(s) else Send(e, s, UhidDestroy(HID_ID_KEYBOARD))
  }

  function CloseMouse(e: C.Env, s: Session): (Session, Result<()>) {
    if !s.dev.mouse then Unit(s) else Send(e, s, UhidDestroy(HID_ID_MOUSE))
  }

  /** The driver frees its slot before the message is sent, and a freed slot is not closed again. */
  function CloseGamepad(e: C.Env, s: Session): (Session, Result<()>) {
    match s.dev.pad
    case None => Unit(s)
    case Some(pad) =>
      var (s1, r) :=
        if pad.bound then
          Send(e, s.(dev := s.dev.(pad := Some(pad.(bound := false)))), UhidDestroy(HID_ID_GAMEPAD))
        else Unit(s);
      if r.Err? then (s1, r) else Unit(s1.(dev := s1.dev.(pad := None)))
  }

  function CloseAll(e: C.Env, s: Session): (Session, Result<()>) {
    if s.dev.closed then Unit(s)
    else
      var (s1, r1) := CloseKeyboard(e, s);
      if r1.Err? then (s1, r1)
      else
        var (s2, r2) := CloseMouse(e, s1);
        if r2.Err? then (s2, r2)
        else
          var (s3, r3) := CloseGamepad(e, s2);
          if r3.Err? then (s3, r3) else Unit(s3.(dev := s3.dev.(closed := true)))
  }

  /** Dropping a session closes it if need be; dropping its writer flushes. */
  function DropSession(e: C.Env, s: Session): Session {
    var s1 := if s.dev.closed then s else CloseAll(e, s).0;
    s1.(writer := C.FlushNow(e, s1.writer).0)
  }
}
