/** The ten-pointer touch handle (src/multitouch.rs) as functions on its state, and the contact
    discipline it enforces. */
module Multitouch {
  import opened Bytes
  import opened Messages
  import opened Sessions
  import opened SessionLaws
  import opened Tapes
  import C = Coalesce
  import L = CoalesceLaws

  const MAX_POINTERS := 10

  type Active = a: seq<bool> | |a| == 10 witness [false, false, false, false, false, false, false, false, false, false]

  type TouchItem = it: Item | it.Touch? witness Touch(0, 0, 0, 0, 0)

  /** `log` lists the touches whose injection returned Ok, `tape` what the stream holds. */
  datatype Handle = Handle(session: Session, active: Active, log: seq<TouchItem>, tape: Tape)

  function New(s: Session): Handle {
    Handle(s, seq(10, _ => false), [], Blank())
  }

  function TouchMessage(d: Devices, t: TouchItem): Msg {
    Other(InjectTouch(t.touch, t.pointerId, t.x, t.y, d.screenW, d.screenH, t.pressure))
  }

  function Inject(e: C.Env, h: Handle, t: TouchItem): (Handle, Result<()>) {
    var (s, r) := Perform(e, h.session, t);
    (Handle(s, h.active, if r.Ok? then h.log + [t] else h.log,
            Record(e, h.session.writer, TouchMessage(h.session.dev, t), h.tape)), r)
  }

  function CheckActive(h: Handle, id: u64): Option<Error> {
    if id >= MAX_POINTERS then Some(PointerIdOutOfRange(id))
    else if !h.active[id] then Some(PointerNotActive(id))
    else None
  }

  function Down(e: C.Env, h: Handle, id: u64, x: i32, y: i32, pressure: u16): (Handle, Result<()>) {
    if id >= MAX_POINTERS then (h, Err(PointerIdOutOfRange(id)))
    else if h.active[id] then (h, Err(PointerAlreadyDown(id)))
    else
      var (h1, r) := Inject(e, h, Touch(ACTION_DOWN, id, x, y, pressure));
      if r.Err? then (h1, r) else (h1.(active := h1.active[id := true]), r)
  }

  function MoveTo(e: C.Env, h: Handle, id: u64, x: i32, y: i32, pressure: u16): (Handle, Result<()>) {
    match CheckActive(h, id)
    case Some(x') => (h, Err(x'))
    case None => Inject(e, h, Touch(ACTION_MOVE, id, x, y, pressure))
  }

  /** `up` and `cancel`. */
  function Lift(e: C.Env, h: Handle, action: byte, id: u64): (Handle, Result<()>)
    requires action == ACTION_UP || action == ACTION_CANCEL
  {
    match CheckActive(h, id)
    case Some(x) => (h, Err(x))
    case None =>
      var (h1, r) := Inject(e, h, Touch(action, id, 0, 0, 0));
      if r.Err? then (h1, r) else (h1.(active := h1.active[id := false]), r)
  }

  datatype PinchPath = PinchPath(id: u64, xFrom: i32, yFrom: i32, xTo: i32, yTo: i32)

  function PinchMove(lerp: Lerp, p: PinchPath, i: nat, steps: nat): TouchItem {
    Touch(ACTION_MOVE, p.id, lerp(p.xFrom, p.xTo, i, steps), lerp(p.yFrom, p.yTo, i, steps), FULL_PRESSURE)
  }

  function PinchFrom(e: C.Env, h: Handle, lerp: Lerp, p0: PinchPath, p1: PinchPath, i: nat, steps: nat)
    : (Handle, Result<()>)
    decreases steps + 1 - i
  {
    if i > steps then (h, Ok(()))
    else
      var (h1, r1) := Inject(e, h, PinchMove(lerp, p0, i, steps));
      if r1.Err? then (h1, r1)
      else
        var (h2, r2) := Inject(e, h1, PinchMove(lerp, p1, i, steps));
        if r2.Err? then (h2, r2) else PinchFrom(e, h2, lerp, p0, p1, i + 1, steps)
  }

  function Pinch(e: C.Env, h: Handle, lerp: Lerp, p0: PinchPath, p1: PinchPath, steps: u32): (Handle, Result<()>) {
    if p0.id >= MAX_POINTERS then (h, Err(PointerIdOutOfRange(p0.id)))
    else if p1.id >= MAX_POINTERS then (h, Err(PointerIdOutOfRange(p1.id)))
    else if !h.active[p0.id] || !h.active[p1.id] then
      (h, Err(PointerNotActive(if !h.active[p0.id] then p0.id else p1.id)))
    else PinchFrom(e, h, lerp, p0, p1, 1, if steps < 2 then 2 else steps)
  }

  function ReleaseFrom(e: C.Env, h: Handle, id: nat): (Handle, Result<()>)
    decreases MAX_POINTERS - id
  {
    if id >= MAX_POINTERS then (h, Ok(()))
    else if !h.active[id] then ReleaseFrom(e, h, id + 1)
    else
      var (h1, r) := Inject(e, h, Touch(ACTION_UP, id, 0, 0, 0));
      if r.Err? then (h1, r) else ReleaseFrom(e, h1.(active := h1.active[id := false]), id + 1)
  }

  function ReleaseAll(e: C.Env, h: Handle): (Handle, Result<()>) {
    ReleaseFrom(e, h, 0)
  }

  function FlushNow(e: C.Env, h: Handle): (Handle, Result<nat>) {
    var (w, r) := C.FlushNow(e, h.session.writer);
    (h.(session := h.session.(writer := w), tape := RecordFlush(e, h.session.writer, h.tape)), r)
  }

  datatype Gesture =
    | DownCall(downId: u64, x: i32, y: i32, pressure: u16)
    | MoveCall(moveId: u64, mx: i32, my: i32, movePressure: u16)
    | UpCall(upId: u64)
    | CancelCall(cancelId: u64)
    | PinchCall(lerp: Lerp, p0: PinchPath, p1: PinchPath, steps: u32)
    | ReleaseCall
    | FlushCall

  function Call(e: C.Env, h: Handle, g: Gesture): (Handle, Result<()>) {
    match g
    case DownCall(id, x, y, p) => Down(e, h, id, x, y, p)
    case MoveCall(id, x, y, p) => MoveTo(e, h, id, x, y, p)
    case UpCall(id) => Lift(e, h, ACTION_UP, id)
    case CancelCall(id) => Lift(e, h, ACTION_CANCEL, id)
    case PinchCall(lerp, p0, p1, steps) => Pinch(e, h, lerp, p0, p1, steps)
    case ReleaseCall => ReleaseAll(e, h)
    case FlushCall =>
      var (h1, r) := FlushNow(e, h);
      (h1, if r.Err? then Err(r.error) else Ok(()))
  }

  function Run(e: C.Env, h: Handle, gs: seq<Gesture>): Handle
    decreases |gs|
  {
    if gs == [] then h else Run(e, Call(e, h, gs[0]).0, gs[1..])
  }

  // The contact automaton ------------------------------------------------------------------

  function Advance(before: Option<bool>, action: byte): Option<bool> {
    if action == ACTION_DOWN then (if before == Some(false) then Some(true) else None)
    else if action == ACTION_MOVE then (if before == Some(true) then Some(true) else None)
    else if action == ACTION_UP || action == ACTION_CANCEL then (if before == Some(true) then Some(false) else None)
    else None
  }

  /** Whether the contact is open after these actions, or None if they break the discipline. */
  function Follow(before: Option<bool>, actions: seq<byte>): Option<bool> {
    if actions == [] then before else Advance(Follow(before, actions[..|actions| - 1]), actions[|actions| - 1])
  }

  function ActionsOf(log: seq<TouchItem>, id: u64): seq<byte> {
    if log == [] then []
    else
      var t := log[|log| - 1];
      ActionsOf(log[..|log| - 1], id) + (if t.pointerId == id then [t.touch] else [])
  }

  /** What the touches logged as Ok make of pointer `id`'s contact. */
  function Contact(log: seq<TouchItem>, id: u64): Option<bool> {
    Follow(Some(false), ActionsOf(log, id))
  }

  function ActionIn(m: Msg, id: u64): seq<byte> {
    if m.Other? && m.plain.InjectTouch? && m.plain.pointerId == id then [m.plain.touch] else []
  }

  function ActionsIn(ms: seq<Msg>, id: u64): seq<byte> {
    if ms == [] then [] else ActionsIn(ms[..|ms| - 1], id) + ActionIn(ms[|ms| - 1], id)
  }

  /** What the messages on the stream make of it. */
  function DeviceContact(entries: seq<Entry>, id: u64): Option<bool> {
    Follow(Some(false), ActionsIn(Heard(entries), id))
  }

  /** A down, up or cancel of the pointer is on the stream although it was reported as failed. */
  predicate Misreported(entries: seq<Entry>, id: u64) {
    entries != [] &&
    (|| Misreported(entries[..|entries| - 1], id)
     || (var x := entries[|entries| - 1]; x.Sent? && !x.ok && ActionIn(x.msg, id) !in {[], [ACTION_MOVE]}))
  }

  predicate EndsContact(action: byte) {
    action == ACTION_UP || action == ACTION_CANCEL
  }

  /** The actions of a buffer do not lead back to where they began: they begin with a down and do not
      end with an up or cancel, or the other way round. Moves alone, whole contacts, and an up
      followed by a down can be repeated. */
  predicate Lopsided(actions: seq<byte>) {
    actions != [] && !(actions[0] == ACTION_DOWN <==> EndsContact(actions[|actions| - 1]))
  }

  /** A misreported event is followed by another one of the pointer, or a torn flush repeats a buffer
      whose events of the pointer are lopsided. */
  predicate Betrayed(entries: seq<Entry>, id: u64) {
    entries != [] &&
    (|| Betrayed(entries[..|entries| - 1], id)
     || match entries[|entries| - 1]
        case Sent(m, _) => ActionIn(m, id) != [] && Misreported(entries[..|entries| - 1], id)
        case Repeated(again) => Lopsided(ActionsIn(again.msgs, id)))
  }

  /** How the device's view of a pointer relates to the handle's flag. */
  ghost predicate DeviceAgrees(h: Handle, id: u64)
    requires id < MAX_POINTERS
  {
    DeviceContact(h.tape.entries, id) ==
    if Betrayed(h.tape.entries, id) then None
    else if Misreported(h.tape.entries, id) then Some(!h.active[id])
    else Some(h.active[id])
  }

  /** The buffered events of a pointer, taken from where they must have begun, lead to its contact. */
  ghost predicate HeldLeadsHere(tape: Tape, id: u64) {
    var actions := ActionsIn(tape.held.msgs, id);
    actions != [] && DeviceContact(tape.entries, id).Some? ==>
      Follow(Some(actions[0] != ACTION_DOWN), actions) == DeviceContact(tape.entries, id)
  }

  /** `active` is exactly the set of open contacts, no other pointer was ever touched, and the
      device sees what the flags say up to misreported and repeated events. */
  ghost predicate Disciplined(h: Handle) {
    && (forall id: u64 :: id < MAX_POINTERS ==>
          Contact(h.log, id) == Some(h.active[id]) && DeviceAgrees(h, id) && HeldLeadsHere(h.tape, id))
    && (forall i :: 0 <= i < |h.log| ==> h.log[i].pointerId < MAX_POINTERS)
  }

  lemma ContactSnoc(log: seq<TouchItem>, t: TouchItem, id: u64)
    ensures Contact(log + [t], id) ==
            if t.pointerId != id then Contact(log, id) else Advance(Contact(log, id), t.touch)
  {
    assert (log + [t])[..|log|] == log;
    FollowSnoc(Some(false), ActionsOf(log, id), t.touch);
    assert ActionsOf(log, id) + [] == ActionsOf(log, id);
  }

  lemma FollowSnoc(before: Option<bool>, actions: seq<byte>, action: byte)
    ensures Follow(before, actions + [action]) == Advance(Follow(before, actions), action)
  {
    assert (actions + [action])[..|actions|] == actions;
  }

  lemma {:induction false} FollowAppend(before: Option<bool>, a: seq<byte>, b: seq<byte>)
    ensures Follow(before, a + b) == Follow(Follow(before, a), b)
    decreases |b|
  {
    if b == [] {
      assert a + b == a;
    } else {
      assert (a + b)[..|a + b| - 1] == a + b[..|b| - 1];
      FollowAppend(before, a, b[..|b| - 1]);
    }
  }

  lemma {:induction false} ActionsInAppend(a: seq<Msg>, b: seq<Msg>, id: u64)
    ensures ActionsIn(a + b, id) == ActionsIn(a, id) + ActionsIn(b, id)
    decreases |b|
  {
    hide ActionIn;
    if b == [] {
      assert a + b == a;
    } else {
      assert (a + b)[..|a + b| - 1] == a + b[..|b| - 1];
      ActionsInAppend(a, b[..|b| - 1], id);
    }
  }

  lemma ActionsInOne(m: Msg, id: u64)
    ensures ActionsIn([m], id) == ActionIn(m, id)
  {
    assert [m][..0] == [];
  }

  /** The first action decides where legal actions begin, the last one where they end. */
  lemma {:induction false} FollowFrom(open: bool, actions: seq<byte>)
    requires actions != []
    ensures var after := Follow(Some(open), actions);
            after.Some? ==> open == (actions[0] != ACTION_DOWN) && after.value == !EndsContact(actions[|actions| - 1])
    decreases |actions|
  {
    if |actions| > 1 {
      FollowFrom(open, actions[..|actions| - 1]);
    }
  }

  lemma {:induction false} NoContactStays(actions: seq<byte>)
    ensures Follow(None, actions) == None
  {
    if actions != [] {
      NoContactStays(actions[..|actions| - 1]);
    }
  }

  /** Repeating a buffer that leads to the contact as it is: nothing changes, unless it is lopsided. */
  lemma RepeatedActions(contact: Option<bool>, actions: seq<byte>)
    requires actions != [] && contact.Some? ==> Follow(Some(actions[0] != ACTION_DOWN), actions) == contact
    ensures Follow(contact, actions) == if Lopsided(actions) then None else contact
  {
    if contact.Some? && actions != [] {
      FollowFrom(actions[0] != ACTION_DOWN, actions);
      FollowFrom(contact.value, actions);
    } else {
      NoContactStays(actions);
    }
  }

  lemma SentSnoc(entries: seq<Entry>, m: Msg, ok: bool, id: u64)
    ensures var entries' := entries + [Sent(m, ok)];
            var acts := ActionIn(m, id);
            && DeviceContact(entries', id)
               == (if acts == [] then DeviceContact(entries, id) else Advance(DeviceContact(entries, id), acts[0]))
            && (Misreported(entries', id) <==> Misreported(entries, id) || (!ok && acts !in {[], [ACTION_MOVE]}))
            && (Betrayed(entries', id) <==> Betrayed(entries, id) || (acts != [] && Misreported(entries, id)))
  {
    var x := Sent(m, ok);
    assert (entries + [x])[..|entries|] == entries;
    HeardSnoc(entries, x);
    ActionsInAppend(Heard(entries), [m], id);
    ActionsInOne(m, id);
    var acts := ActionsIn(Heard(entries), id);
    if ActionIn(m, id) == [] {
      assert acts + [] == acts;
    } else {
      FollowSnoc(Some(false), acts, m.plain.touch);
    }
  }

  lemma RepeatedSnoc(tape: Tape, id: u64)
    requires HeldLeadsHere(tape, id)
    ensures var entries' := tape.entries + [Repeated(tape.held)];
            var lopsided := Lopsided(ActionsIn(tape.held.msgs, id));
            && DeviceContact(entries', id) == (if lopsided then None else DeviceContact(tape.entries, id))
            && (Misreported(entries', id) <==> Misreported(tape.entries, id))
            && (Betrayed(entries', id) <==> Betrayed(tape.entries, id) || lopsided)
  {
    hide ActionIn;
    var x := Repeated(tape.held);
    var acts := ActionsIn(tape.held.msgs, id);
    assert (tape.entries + [x])[..|tape.entries|] == tape.entries;
    HeardSnoc(tape.entries, x);
    ActionsInAppend(Heard(tape.entries), tape.held.msgs, id);
    FollowAppend(Some(false), ActionsIn(Heard(tape.entries), id), acts);
    RepeatedActions(DeviceContact(tape.entries, id), acts);
  }

  /** A torn flush keeps what is known of the pointer. */
  lemma RepeatKeepsAgreement(h: Handle, h': Handle, id: u64)
    requires id < MAX_POINTERS && DeviceAgrees(h, id) && HeldLeadsHere(h.tape, id)
    requires h'.active == h.active && h'.tape == Tape(h.tape.entries + [Repeated(h.tape.held)], h.tape.held)
    ensures DeviceAgrees(h', id) && HeldLeadsHere(h'.tape, id)
  {
    hide DeviceContact, Betrayed, Misreported, ActionsIn, Lopsided;
    RepeatedSnoc(h.tape, id);
  }

  /** A message on the stream that the automaton allows. */
  lemma SentKeepsAgreement(h: Handle, h': Handle, t: TouchItem, m: Msg, open: bool, ok: bool, id: u64)
    requires id < MAX_POINTERS && DeviceAgrees(h, id) && HeldLeadsHere(h.tape, id)
    requires t.pointerId < MAX_POINTERS && Advance(Some(h.active[t.pointerId]), t.touch) == Some(open)
    requires ActionIn(m, id) == if t.pointerId == id then [t.touch] else []
    requires h'.tape == Tape(h.tape.entries + [Sent(m, ok)], h.tape.held.(msgs := h.tape.held.msgs + [m]))
    requires h'.active == (if ok then h.active[t.pointerId := open] else h.active)
    ensures DeviceAgrees(h', id) && HeldLeadsHere(h'.tape, id)
  {
    hide DeviceContact, Betrayed, Misreported, ActionIn, ActionsIn, Follow, HeldLeadsHere;
    SentSnoc(h.tape.entries, m, ok, id);
    SentLeadsHere(h.tape, m, ok, id);
  }

  /** One more message, on the stream and in the buffer. */
  lemma SentLeadsHere(tape: Tape, m: Msg, ok: bool, id: u64)
    requires HeldLeadsHere(tape, id)
    ensures HeldLeadsHere(Tape(tape.entries + [Sent(m, ok)], tape.held.(msgs := tape.held.msgs + [m])), id)
  {
    hide DeviceContact, Betrayed, Misreported, ActionsIn, Follow;
    SentSnoc(tape.entries, m, ok, id);
    var acts := ActionsIn(tape.held.msgs, id);
    ActionsInAppend(tape.held.msgs, [m], id);
    ActionsInOne(m, id);
    if ActionIn(m, id) == [] {
      assert acts + [] == acts;
    } else {
      var action := ActionIn(m, id)[0];
      assert ActionIn(m, id) == [action];
      FollowSnoc(Some((acts + [action])[0] != ACTION_DOWN), acts, action);
      if acts == [] {
        OneActionLeads(DeviceContact(tape.entries, id), action);
      }
    }
  }

  lemma OneActionLeads(contact: Option<bool>, action: byte)
    ensures Advance(contact, action).Some? ==>
              Advance(Follow(Some(action != ACTION_DOWN), []), action) == Advance(contact, action)
  {
  }

  /** The tape of a push, step by step: the message, the torn flush, what is still buffered. */
  lemma ExtendKeepsAgreement(h: Handle, h': Handle, t: TouchItem, m: Msg, open: bool,
                             ok: bool, sent: bool, torn: bool, drained: bool, id: u64)
    requires id < MAX_POINTERS && DeviceAgrees(h, id) && HeldLeadsHere(h.tape, id) && (ok ==> sent)
    requires t.pointerId < MAX_POINTERS && Advance(Some(h.active[t.pointerId]), t.touch) == Some(open)
    requires ActionIn(m, id) == if t.pointerId == id then [t.touch] else []
    requires h'.tape == Extend(h.tape, m, ok, sent, torn, drained)
    requires h'.active == (if ok then h.active[t.pointerId := open] else h.active)
    ensures DeviceAgrees(h', id) && HeldLeadsHere(h'.tape, id)
  {
    hide DeviceContact, Betrayed, Misreported, ActionIn, ActionsIn, Follow;
    var held := if sent then h.tape.held.(msgs := h.tape.held.msgs + [m]) else h.tape.held;
    var h1 := h'.(tape := Tape(h.tape.entries + (if sent then [Sent(m, ok)] else []), held));
    if sent {
      SentKeepsAgreement(h, h1, t, m, open, ok, id);
    } else {
      assert h1.tape == h.tape;
    }
    var h2 := if torn then h1.(tape := Tape(h1.tape.entries + [Repeated(held)], held)) else h1;
    if torn {
      RepeatKeepsAgreement(h1, h2, id);
    }
    assert h'.tape.entries == h2.tape.entries;
    DrainedLeadsHere(h'.tape.entries, id);
  }

  lemma DrainedLeadsHere(entries: seq<Entry>, id: u64)
    ensures HeldLeadsHere(Tape(entries, NOTHING), id)
  {
  }

  lemma TouchAction(d: Devices, t: TouchItem, id: u64)
    ensures ActionIn(TouchMessage(d, t), id) == if t.pointerId == id then [t.touch] else []
  {
  }

  lemma OkIsAccepted(e: C.Env, s: Session, t: TouchItem)
    ensures var (w, r) := C.Push(e, s.writer, TouchMessage(s.dev, t));
            && Perform(e, s, t).0 == s.(writer := w)
            && (Perform(e, s, t).1.Ok? <==> r.Ok?)
            && (r.Ok? ==> L.AcceptedMessage(e, s.writer, TouchMessage(s.dev, t)) == 1)
  {
    TouchSerializes(TouchMessage(s.dev, t).plain);
    hide Serialize, Encoding;
    var r := C.Push(e, s.writer, TouchMessage(s.dev, t)).1;
    assert r.Ok? || r.Err?;
  }

  lemma InjectKeepsDiscipline(e: C.Env, h: Handle, t: TouchItem, open: bool)
    requires Disciplined(h) && t.pointerId < MAX_POINTERS
    requires Advance(Some(h.active[t.pointerId]), t.touch) == Some(open)
    ensures var (h1, r) := Inject(e, h, t);
            && h1.active == h.active
            && (r.Err? ==> Disciplined(h1))
            && (r.Ok? ==> Disciplined(h1.(active := h1.active[t.pointerId := open])))
  {
    hide Perform, C.Push, L.AcceptedMessage, L.MessageFlushes, L.AnyTears, Extend, Contact, DeviceAgrees, HeldLeadsHere,
         TouchMessage;
    var (h1, r) := Inject(e, h, t);
    var m := TouchMessage(h.session.dev, t);
    var (w', r') := C.Push(e, h.session.writer, m);
    OkIsAccepted(e, h.session, t);
    var h' := if r.Ok? then h1.(active := h1.active[t.pointerId := open]) else h1;
    forall id: u64 | id < MAX_POINTERS
      ensures Contact(h'.log, id) == Some(h'.active[id]) && DeviceAgrees(h', id) && HeldLeadsHere(h'.tape, id)
    {
      ContactSnoc(h.log, t, id);
      TouchAction(h.session.dev, t, id);
      ExtendKeepsAgreement(h, h', t, m, open, r'.Ok?, L.AcceptedMessage(e, h.session.writer, m) == 1,
                           L.AnyTears(e, L.MessageFlushes(e, h.session.writer, m)), w'.pending == [], id);
    }
  }

  lemma FlushKeepsDiscipline(e: C.Env, h: Handle)
    requires Disciplined(h)
    ensures Disciplined(FlushNow(e, h).0)
  {
    hide Contact, DeviceContact, Betrayed, Misreported, ActionsIn, Follow, C.FlushNow, L.Tears;
    var h' := FlushNow(e, h).0;
    var h1 := h.(tape := Tape(h.tape.entries + [Repeated(h.tape.held)], h.tape.held));
    forall id: u64 | id < MAX_POINTERS
      ensures DeviceAgrees(h', id) && HeldLeadsHere(h'.tape, id)
    {
      assert DeviceAgrees(h, id);
      RepeatKeepsAgreement(h, h1, id);
      DrainedLeadsHere(h'.tape.entries, id);
      assert h.tape.entries + [] == h.tape.entries;
    }
  }

  lemma MoveKeepsDiscipline(e: C.Env, h: Handle, t: TouchItem)
    requires Disciplined(h) && t.pointerId < MAX_POINTERS && h.active[t.pointerId] && t.touch == ACTION_MOVE
    ensures Disciplined(Inject(e, h, t).0) && Inject(e, h, t).0.active == h.active
  {
    hide Inject;
    InjectKeepsDiscipline(e, h, t, true);
    var h1 := Inject(e, h, t).0;
    assert h1.active[t.pointerId := true] == h1.active;
  }

  lemma {:induction false} PinchKeepsDiscipline(
    e: C.Env, h: Handle, lerp: Lerp, p0: PinchPath, p1: PinchPath, i: nat, steps: nat)
    requires Disciplined(h) && p0.id < MAX_POINTERS && p1.id < MAX_POINTERS && h.active[p0.id] && h.active[p1.id]
    ensures Disciplined(PinchFrom(e, h, lerp, p0, p1, i, steps).0)
    decreases steps + 1 - i
  {
    hide Inject, Disciplined;
    if i <= steps {
      MoveKeepsDiscipline(e, h, PinchMove(lerp, p0, i, steps));
      var (h1, r1) := Inject(e, h, PinchMove(lerp, p0, i, steps));
      if r1.Ok? {
        MoveKeepsDiscipline(e, h1, PinchMove(lerp, p1, i, steps));
        var (h2, r2) := Inject(e, h1, PinchMove(lerp, p1, i, steps));
        if r2.Ok? {
          PinchKeepsDiscipline(e, h2, lerp, p0, p1, i + 1, steps);
        }
      }
    }
  }

  lemma {:induction false} ReleaseKeepsDiscipline(e: C.Env, h: Handle, id: nat)
    requires Disciplined(h) && forall k :: 0 <= k < id && k < MAX_POINTERS ==> !h.active[k]
    ensures var (h', r) := ReleaseFrom(e, h, id);
            Disciplined(h') && (r.Ok? ==> forall k :: 0 <= k < MAX_POINTERS ==> !h'.active[k])
    decreases MAX_POINTERS - id
  {
    hide Inject, Disciplined;
    if id < MAX_POINTERS {
      if !h.active[id] {
        ReleaseKeepsDiscipline(e, h, id + 1);
      } else {
        var t := Touch(ACTION_UP, id, 0, 0, 0);
        InjectKeepsDiscipline(e, h, t, false);
        var (h1, r) := Inject(e, h, t);
        if r.Ok? {
          ReleaseKeepsDiscipline(e, h1.(active := h1.active[id := false]), id + 1);
        }
      }
    }
  }

  lemma CallKeepsDiscipline(e: C.Env, h: Handle, g: Gesture)
    requires Disciplined(h)
    ensures Disciplined(Call(e, h, g).0)
    ensures g.ReleaseCall? && Call(e, h, g).1.Ok? ==> forall k :: 0 <= k < MAX_POINTERS ==> !Call(e, h, g).0.active[k]
  {
    hide Inject, PinchFrom, FlushNow, Disciplined;
    match g
    case DownCall(id, x, y, p) =>
      if id < MAX_POINTERS && !h.active[id] {
        InjectKeepsDiscipline(e, h, Touch(ACTION_DOWN, id, x, y, p), true);
      }
    case MoveCall(id, x, y, p) =>
      if id < MAX_POINTERS && h.active[id] {
        MoveKeepsDiscipline(e, h, Touch(ACTION_MOVE, id, x, y, p));
      }
    case UpCall(id) =>
      if id < MAX_POINTERS && h.active[id] {
        InjectKeepsDiscipline(e, h, Touch(ACTION_UP, id, 0, 0, 0), false);
      }
    case CancelCall(id) =>
      if id < MAX_POINTERS && h.active[id] {
        InjectKeepsDiscipline(e, h, Touch(ACTION_CANCEL, id, 0, 0, 0), false);
      }
    case PinchCall(lerp, p0, p1, steps) =>
      if p0.id < MAX_POINTERS && p1.id < MAX_POINTERS && h.active[p0.id] && h.active[p1.id] {
        PinchKeepsDiscipline(e, h, lerp, p0, p1, 1, if steps < 2 then 2 else steps);
      }
    case ReleaseCall => ReleaseKeepsDiscipline(e, h, 0);
    case FlushCall => FlushKeepsDiscipline(e, h);
  }

  /** Over every run of one handle on every transport: `active[id]` holds exactly when pointer
      `id`'s contact is open, and the successfully injected events never break the discipline. */
  lemma {:induction false} RunKeepsDiscipline(e: C.Env, h: Handle, gs: seq<Gesture>)
    requires Disciplined(h)
    ensures Disciplined(Run(e, h, gs))
    decreases |gs|
  {
    hide Call, Disciplined;
    if gs != [] {
      CallKeepsDiscipline(e, h, gs[0]);
      RunKeepsDiscipline(e, Call(e, h, gs[0]).0, gs[1..]);
    }
  }

  lemma NewIsDisciplined(s: Session)
    ensures Disciplined(New(s))
  {
  }

  /** An Ok release_all closes every open contact. */
  lemma ReleaseClosesEveryContact(e: C.Env, s: Session, gs: seq<Gesture>, id: u64)
    requires ReleaseAll(e, Run(e, New(s), gs)).1.Ok? && id < MAX_POINTERS
    ensures Contact(ReleaseAll(e, Run(e, New(s), gs)).0.log, id) == Some(false)
  {
    hide Run, ReleaseFrom;
    NewIsDisciplined(s);
    RunKeepsDiscipline(e, New(s), gs);
    ReleaseKeepsDiscipline(e, Run(e, New(s), gs), 0);
  }

  /** Over every run of one handle on every transport: the touches on the stream break a pointer's
      contact discipline if and only if one of its downs, ups or cancels is there although it was
      reported as failed, followed by any other event of the pointer, such as a retry, or a torn
      flush repeated a buffer with a lopsided share of its events. */
  lemma DeviceDisciplineBreaksIff(e: C.Env, s: Session, gs: seq<Gesture>, id: u64)
    requires id < MAX_POINTERS
    ensures DeviceContact(Run(e, New(s), gs).tape.entries, id) == None <==>
            Betrayed(Run(e, New(s), gs).tape.entries, id)
  {
    hide Run;
    NewIsDisciplined(s);
    RunKeepsDiscipline(e, New(s), gs);
    assert DeviceAgrees(Run(e, New(s), gs), id);
  }

  /** A down that fails in the buffer and is tried again: the device gets it twice. */
  lemma RetriedDownIsSentTwice(e: C.Env, s: Session, id: u64, x: i32, y: i32, pressure: u16)
    requires id < MAX_POINTERS && !s.writer.direct && s.writer.hardLimit == 1
    requires !e.writeOk(s.writer.calls) && e.writeOk(s.writer.calls + 1) && e.flushOk(s.writer.calls + 2)
    ensures var down := DownCall(id, x, y, pressure);
            var h := Run(e, New(s), [down, down]);
            var m := TouchMessage(s.dev, Touch(ACTION_DOWN, id, x, y, pressure));
            && h.tape.entries == [Sent(m, false), Sent(m, true)] && Betrayed(h.tape.entries, id)
            && h.session.writer.wire == s.writer.wire + s.writer.pending + (Encoding(m) + Encoding(m))
  {
    hide C.Push, Perform, Misreported, Betrayed, Encoding, Record;
    var t := Touch(ACTION_DOWN, id, x, y, pressure);
    var m := TouchMessage(s.dev, t);
    var down := DownCall(id, x, y, pressure);
    TouchSerializes(m.plain);
    PushedTwice(e, s.writer, m, Blank());
    OkIsAccepted(e, s, t);
    var h1 := Down(e, New(s), id, x, y, pressure).0;
    assert h1.session == s.(writer := C.Push(e, s.writer, m).0) && !h1.active[id];
    OkIsAccepted(e, h1.session, t);
    var h2 := Down(e, h1, id, x, y, pressure).0;
    var two := [down, down];
    assert two[1..] == [down] && two[1..][1..] == [];
    assert Run(e, New(s), two) == Run(e, h1, two[1..]) == Run(e, h2, two[1..][1..]) == h2;
    RetryIsBetrayed(m, id);
  }

  lemma RetryIsBetrayed(m: Msg, id: u64)
    requires ActionIn(m, id) == [ACTION_DOWN]
    ensures Betrayed([Sent(m, false), Sent(m, true)], id)
  {
    var entries := [Sent(m, false), Sent(m, true)];
    assert entries[..1] == [Sent(m, false)] && entries[..1][..0] == [];
    assert Misreported(entries[..1], id);
  }

  /** The same message pushed twice over a failing flush. */
  lemma PushedTwice(e: C.Env, w: C.Writer, m: Msg, tape: Tape)
    requires !m.Critical() && Serialize(m).Ok? && Encoding(m) != [] && !w.direct && w.hardLimit == 1
    requires !e.writeOk(w.calls) && e.writeOk(w.calls + 1) && e.flushOk(w.calls + 2) && tape.entries == []
    ensures var (w1, r1) := C.Push(e, w, m);
            var (w2, r2) := C.Push(e, w1, m);
            && r1.Err? && r2.Ok? && w1.direct == w.direct
            && Record(e, w1, m, Record(e, w, m, tape)).entries == [Sent(m, false), Sent(m, true)]
            && w2.wire == w.wire + w.pending + (Encoding(m) + Encoding(m))
  {
    hide Serialize, Encoding;
    L.EncodingOk(m);
    var b := Encoding(m);
    var w1 := C.Push(e, w, m).0;
    assert w.wire + (w.pending + b + b) == w.wire + w.pending + (b + b);
    L.OneTears(e, w.(pushed := w.pushed + 1, pending := w.pending + b));
    L.OneTears(e, w1.(pushed := w1.pushed + 1, pending := w1.pending + b));
    assert tape.entries + [Sent(m, false)] + [] + [Sent(m, true)] + [] == [Sent(m, false), Sent(m, true)];
  }

  /** Nothing is reported as failed: a down is buffered, the flush's write lands and its transport
      flush fails, and the next flush sends the down again. */
  lemma TornFlushRepeatsADown(e: C.Env, s: Session, id: u64, x: i32, y: i32, pressure: u16)
    requires id < MAX_POINTERS && !s.writer.direct && s.writer.pending == [] && !e.expired(s.writer.ticks)
    requires |Encoding(TouchMessage(s.dev, Touch(ACTION_DOWN, id, x, y, pressure)))| < s.writer.hardLimit
    requires var c := s.writer.calls; e.writeOk(c) && !e.flushOk(c + 1) && e.writeOk(c + 2) && e.flushOk(c + 3)
    ensures var h := Run(e, New(s), [DownCall(id, x, y, pressure), FlushCall, FlushCall]);
            var m := TouchMessage(s.dev, Touch(ACTION_DOWN, id, x, y, pressure));
            && h.tape.entries == [Sent(m, true), Repeated(Held(true, [m]))] && !Misreported(h.tape.entries, id)
            && Betrayed(h.tape.entries, id) && h.active[id]
            && h.session.writer.wire == s.writer.wire + (Encoding(m) + Encoding(m))
  {
    hide C.Push, Perform, Misreported, Betrayed, Encoding, Record, C.FlushNow, RecordFlush;
    var t := Touch(ACTION_DOWN, id, x, y, pressure);
    var m := TouchMessage(s.dev, t);
    TouchSerializes(m.plain);
    HeldThenTorn(e, s.writer, m, Blank());
    OkIsAccepted(e, s, t);
    var gs := [DownCall(id, x, y, pressure), FlushCall, FlushCall];
    var h1 := Down(e, New(s), id, x, y, pressure).0;
    var h2 := FlushNow(e, h1).0;
    assert gs[1..] == [FlushCall, FlushCall] && gs[1..][1..] == [FlushCall] && gs[1..][1..][1..] == [];
    assert Run(e, New(s), gs) == Run(e, h1, gs[1..]) == Run(e, h2, gs[1..][1..])
        == Run(e, FlushNow(e, h2).0, gs[1..][1..][1..]);
    RepeatedDownIsBetrayed(m, id);
  }

  lemma RepeatedDownIsBetrayed(m: Msg, id: u64)
    requires ActionIn(m, id) == [ACTION_DOWN]
    ensures var entries := [Sent(m, true), Repeated(Held(true, [m]))];
            !Misreported(entries, id) && Betrayed(entries, id)
  {
    var entries := [Sent(m, true), Repeated(Held(true, [m]))];
    assert entries[..1] == [Sent(m, true)] && entries[..1][..0] == [];
    ActionsInOne(m, id);
    assert Lopsided(ActionsIn([m], id));
    assert !Misreported(entries[..1], id);
  }

  /** A message buffered, then two flushes of which the first tears. */
  lemma HeldThenTorn(e: C.Env, w: C.Writer, m: Msg, tape: Tape)
    requires !m.Critical() && Serialize(m).Ok? && Encoding(m) != [] && !w.direct && w.pending == []
    requires |Encoding(m)| < w.hardLimit && !e.expired(w.ticks) && tape == Blank()
    requires e.writeOk(w.calls) && !e.flushOk(w.calls + 1) && e.writeOk(w.calls + 2) && e.flushOk(w.calls + 3)
    ensures var (w1, r1) := C.Push(e, w, m);
            var t1 := Record(e, w, m, tape);
            var w2 := C.FlushNow(e, w1).0;
            var t2 := RecordFlush(e, w1, t1);
            && r1.Ok?
            && RecordFlush(e, w2, t2).entries == [Sent(m, true), Repeated(Held(true, [m]))]
            && C.FlushNow(e, w2).0.wire == w.wire + (Encoding(m) + Encoding(m))
  {
    hide Serialize, Encoding;
    L.EncodingOk(m);
    var b := Encoding(m);
    assert [] + b == b && w.wire + b + b == w.wire + (b + b);
    assert L.MessageFlushes(e, w, m) == [];
    assert [] + [Sent(m, true)] + [] == [Sent(m, true)] && [] + [m] == [m];
    assert [Sent(m, true)] + [Repeated(Held(true, [m]))] + [] == [Sent(m, true), Repeated(Held(true, [m]))];
  }

  // The automaton is the expression (DOWN MOVE* (UP | CANCEL))* ------------------------------

  /** One finished contact: how many moves, and how it ended. */
  datatype Stroke = Stroke(moves: nat, cancelled: bool)

  function Moves(n: nat): (r: seq<byte>)
    ensures |r| == n
  {
    seq(n, _ => ACTION_MOVE)
  }

  function SpellStroke(s: Stroke): seq<byte> {
    [ACTION_DOWN] + Moves(s.moves) + [if s.cancelled then ACTION_CANCEL else ACTION_UP]
  }

  function Spell(strokes: seq<Stroke>): seq<byte> {
    if strokes == [] then [] else Spell(strokes[..|strokes| - 1]) + SpellStroke(strokes[|strokes| - 1])
  }

  /** The events of a disciplined pointer spell finished strokes, then at most one open one. */
  lemma {:induction false} DisciplineSpellsStrokes(log: seq<TouchItem>, id: u64)
    returns (strokes: seq<Stroke>, openMoves: Option<nat>)
    requires Contact(log, id).Some?
    ensures openMoves.Some? == Contact(log, id).value
    ensures ActionsOf(log, id) ==
            Spell(strokes) + (if openMoves.Some? then [ACTION_DOWN] + Moves(openMoves.value) else [])
    decreases |log|
  {
    if log == [] {
      strokes, openMoves := [], None;
    } else {
      var t := log[|log| - 1];
      ContactSnoc(log[..|log| - 1], t, id);
      assert log == log[..|log| - 1] + [t];
      strokes, openMoves := DisciplineSpellsStrokes(log[..|log| - 1], id);
      if t.pointerId == id {
        if t.touch == ACTION_DOWN {
          openMoves := Some(0);
          assert [ACTION_DOWN] + Moves(0) == [ACTION_DOWN];
        } else if t.touch == ACTION_MOVE {
          assert Moves(openMoves.value) + [ACTION_MOVE] == Moves(openMoves.value + 1);
          openMoves := Some(openMoves.value + 1);
        } else {
          var done := Stroke(openMoves.value, t.touch == ACTION_CANCEL);
          assert (strokes + [done])[..|strokes|] == strokes;
          strokes, openMoves := strokes + [done], None;
        }
      }
    }
  }

  // What the calls inject ----------------------------------------------------------------------

  function ActiveFrom(active: Active, from: nat): seq<u64>
    decreases MAX_POINTERS - from
  {
    if from >= MAX_POINTERS then []
    else (if active[from] then [from as u64] else []) + ActiveFrom(active, from + 1)
  }

  /** The touch that `lerp` gives after `i` of `n` steps along a path. */
  function Along(lerp: Lerp, p: PinchPath, i: nat, n: nat): TouchItem {
    Touch(ACTION_MOVE, p.id, lerp(p.xFrom, p.xTo, i, n), lerp(p.yFrom, p.yTo, i, n), 0xFFFF)
  }

  /** The touches a call stands for, or why it is refused. A pinch of `n` steps moves its two pointers in
      turn; releasing lifts the active pointers in increasing order. */
  function Meant(h: Handle, g: Gesture): Result<seq<TouchItem>> {
    match g
    case DownCall(id, x, y, p) =>
      if id >= 10 then Err(PointerIdOutOfRange(id))
      else if h.active[id] then Err(PointerAlreadyDown(id))
      else Ok([Touch(ACTION_DOWN, id, x, y, p)])
    case MoveCall(id, x, y, p) =>
      if id >= 10 then Err(PointerIdOutOfRange(id))
      else if !h.active[id] then Err(PointerNotActive(id))
      else Ok([Touch(ACTION_MOVE, id, x, y, p)])
    case UpCall(id) =>
      if id >= 10 then Err(PointerIdOutOfRange(id))
      else if !h.active[id] then Err(PointerNotActive(id))
      else Ok([Touch(ACTION_UP, id, 0, 0, 0)])
    case CancelCall(id) =>
      if id >= 10 then Err(PointerIdOutOfRange(id))
      else if !h.active[id] then Err(PointerNotActive(id))
      else Ok([Touch(ACTION_CANCEL, id, 0, 0, 0)])
    case PinchCall(lerp, p0, p1, steps) =>
      var n: nat := if steps > 2 then steps else 2;
      if p0.id >= 10 then Err(PointerIdOutOfRange(p0.id))
      else if p1.id >= 10 then Err(PointerIdOutOfRange(p1.id))
      else if !h.active[p0.id] then Err(PointerNotActive(p0.id))
      else if !h.active[p1.id] then Err(PointerNotActive(p1.id))
      else Ok(seq(2 * n, k requires 0 <= k < 2 * n => Along(lerp, if k % 2 == 0 then p0 else p1, k / 2 + 1, n)))
    case ReleaseCall => Ok(Lifts(ActiveFrom(h.active, 0)))
    case FlushCall => Ok([])
  }

  /** The session's touch injections, one after the other, up to the first that fails. */
  function InjectEach(e: C.Env, s: Session, touches: seq<TouchItem>): (Session, Result<()>)
    decreases |touches|
  {
    if touches == [] then (s, Ok(()))
    else
      var (s1, r) := Perform(e, s, touches[0]);
      if r.Err? then (s1, r) else InjectEach(e, s1, touches[1..])
  }

  /** From `h` to `h'` exactly `touches` were injected, up to the first that fails. */
  ghost predicate Injected(e: C.Env, h: Handle, h': Handle, touches: seq<TouchItem>, r: Result<()>) {
    && (h'.session, r) == InjectEach(e, h.session, touches)
    && h.log <= h'.log && h'.log[|h.log|..] <= touches
    && (r.Ok? <==> h'.log[|h.log|..] == touches)
  }

  lemma InjectInjects(e: C.Env, h: Handle, t: TouchItem)
    ensures var (h1, r) := Inject(e, h, t); Injected(e, h, h1, [t], r) && h1.active == h.active
    ensures forall a: Active :: Injected(e, h, Inject(e, h, t).0.(active := a), [t], Inject(e, h, t).1)
  {
    hide Perform, Record;
    var one := [t];
    assert one[0] == t && one[1..] == [];
    var (s, r) := Perform(e, h.session, t);
    assert r.Ok? ==> r.value == ();
    assert InjectEach(e, h.session, one) == (s, r);
    assert (h.log + one)[|h.log|..] == one && h.log[|h.log|..] == [];
    var h1 := Inject(e, h, t).0;
    assert h1.session == s && h1.log == if r.Ok? then h.log + one else h.log;
  }

  lemma {:induction false} InjectEachAppend(e: C.Env, s: Session, a: seq<TouchItem>, b: seq<TouchItem>)
    ensures var (s1, r) := InjectEach(e, s, a);
            InjectEach(e, s, a + b) == if r.Err? then (s1, r) else InjectEach(e, s1, b)
    decreases |a|
  {
    hide Perform;
    if a == [] {
      assert a + b == b;
    } else {
      assert (a + b)[0] == a[0] && (a + b)[1..] == a[1..] + b;
      InjectEachAppend(e, Perform(e, s, a[0]).0, a[1..], b);
    }
  }

  lemma InjectedThen(e: C.Env, h: Handle, h1: Handle, h2: Handle, x: seq<TouchItem>, y: seq<TouchItem>,
                     r1: Result<()>, r2: Result<()>)
    requires Injected(e, h, h1, x, r1) && r1.Ok? && Injected(e, h1, h2, y, r2)
    ensures Injected(e, h, h2, x + y, r2)
  {
    hide InjectEach;
    InjectEachAppend(e, h.session, x, y);
    assert h2.log[|h.log|..] == x + h2.log[|h1.log|..];
  }

  lemma StoppedEarly(e: C.Env, h: Handle, h1: Handle, x: seq<TouchItem>, y: seq<TouchItem>, r: Result<()>)
    requires Injected(e, h, h1, x, r) && r.Err?
    ensures Injected(e, h, h1, x + y, r)
  {
    hide InjectEach;
    InjectEachAppend(e, h.session, x, y);
    assert h1.log[|h.log|..] <= x + y && |h1.log[|h.log|..]| <= |x|;
    assert h1.log[|h.log|..] == x + y ==> y == [] && x + y == x;
  }

  lemma NothingInjected(e: C.Env, h: Handle)
    ensures Injected(e, h, h, [], Ok(()))
  {
    assert h.log[|h.log|..] == [];
  }

  function PinchTouches(lerp: Lerp, p0: PinchPath, p1: PinchPath, i: nat, n: nat): seq<TouchItem>
    decreases n + 1 - i
  {
    if i > n then [] else [Along(lerp, p0, i, n)] + ([Along(lerp, p1, i, n)] + PinchTouches(lerp, p0, p1, i + 1, n))
  }

  lemma {:induction false} PinchInjects(e: C.Env, h: Handle, lerp: Lerp, p0: PinchPath, p1: PinchPath, i: nat, n: nat)
    ensures var (h', r) := PinchFrom(e, h, lerp, p0, p1, i, n);
            Injected(e, h, h', PinchTouches(lerp, p0, p1, i, n), r)
    decreases n + 1 - i
  {
    hide Inject, Injected;
    if i > n {
      NothingInjected(e, h);
    } else {
      var t0, t1 := Along(lerp, p0, i, n), Along(lerp, p1, i, n);
      assert t0 == PinchMove(lerp, p0, i, n) && t1 == PinchMove(lerp, p1, i, n);
      var later := PinchTouches(lerp, p0, p1, i + 1, n);
      InjectInjects(e, h, t0);
      var (h1, r1) := Inject(e, h, t0);
      if r1.Err? {
        StoppedEarly(e, h, h1, [t0], [t1] + later, r1);
      } else {
        InjectInjects(e, h1, t1);
        var (h2, r2) := Inject(e, h1, t1);
        var (h', r) := PinchFrom(e, h, lerp, p0, p1, i, n);
        if r2.Err? {
          StoppedEarly(e, h1, h2, [t1], later, r2);
        } else {
          PinchInjects(e, h2, lerp, p0, p1, i + 1, n);
          InjectedThen(e, h1, h2, h', [t1], later, r2, r);
        }
        InjectedThen(e, h, h1, h', [t0], [t1] + later, r1, r);
      }
    }
  }

  lemma {:induction false} PinchTouchAt(lerp: Lerp, p0: PinchPath, p1: PinchPath, i: nat, n: nat)
    requires 1 <= i <= n + 1
    ensures var ts := PinchTouches(lerp, p0, p1, i, n);
            && |ts| == 2 * (n + 1 - i)
            && forall k :: 0 <= k < |ts| ==> ts[k] == Along(lerp, if k % 2 == 0 then p0 else p1, k / 2 + i, n)
    decreases n + 1 - i
  {
    if i <= n {
      PinchTouchAt(lerp, p0, p1, i + 1, n);
      var ts, later := PinchTouches(lerp, p0, p1, i, n), PinchTouches(lerp, p0, p1, i + 1, n);
      forall k | 2 <= k < |ts|
        ensures ts[k] == Along(lerp, if k % 2 == 0 then p0 else p1, k / 2 + i, n)
      {
        assert ts[k] == later[k - 2] && (k - 2) / 2 + i + 1 == k / 2 + i && (k - 2) % 2 == k % 2;
      }
    }
  }

  function Lifts(ids: seq<u64>): (r: seq<TouchItem>)
    ensures |r| == |ids|
    ensures forall k :: 0 <= k < |r| ==> r[k] == Touch(ACTION_UP, ids[k], 0, 0, 0)
  {
    seq(|ids|, k requires 0 <= k < |ids| => Touch(ACTION_UP, ids[k], 0, 0, 0))
  }

  lemma {:induction false} SameActive(a: Active, b: Active, from: nat)
    requires forall k :: from <= k < 10 ==> a[k] == b[k]
    ensures ActiveFrom(a, from) == ActiveFrom(b, from)
    decreases MAX_POINTERS - from
  {
    if from < MAX_POINTERS {
      SameActive(a, b, from + 1);
    }
  }

  lemma LiftsCons(id: u64, ids: seq<u64>)
    ensures Lifts([id] + ids) == [Touch(ACTION_UP, id, 0, 0, 0)] + Lifts(ids)
  {
  }

  lemma {:induction false} ReleaseInjects(e: C.Env, h: Handle, id: nat)
    ensures var (h', r) := ReleaseFrom(e, h, id); Injected(e, h, h', Lifts(ActiveFrom(h.active, id)), r)
    decreases MAX_POINTERS - id
  {
    hide Inject, Injected;
    var later := ActiveFrom(h.active, id + 1);
    if id >= MAX_POINTERS {
      NothingInjected(e, h);
    } else if !h.active[id] {
      ReleaseInjects(e, h, id + 1);
      assert [] + later == later;
    } else {
      var t := Touch(ACTION_UP, id, 0, 0, 0);
      LiftsCons(id, later);
      hide Lifts, ActiveFrom;
      InjectInjects(e, h, t);
      var (h1, r1) := Inject(e, h, t);
      if r1.Err? {
        StoppedEarly(e, h, h1, [t], Lifts(later), r1);
      } else {
        var h2 := h1.(active := h1.active[id := false]);
        SameActive(h.active, h2.active, id + 1);
        ReleaseInjects(e, h2, id + 1);
        var (h', r) := ReleaseFrom(e, h2, id + 1);
        InjectedThen(e, h, h2, h', [t], Lifts(later), r1, r);
      }
    }
  }

  /** On every transport a call is refused without any effect, or injects exactly the touches it stands
      for, in order, up to the first injection that fails; those that succeeded are logged. */
  lemma CallInjectsWhatItMeans(e: C.Env, h: Handle, g: Gesture)
    requires !g.FlushCall?
    ensures var (h', r) := Call(e, h, g);
            match Meant(h, g)
            case Err(x) => h' == h && r == Err(x)
            case Ok(touches) => Injected(e, h, h', touches, r)
  {
    hide Inject, Injected, PinchFrom, ReleaseFrom;
    match g
    case DownCall(id, x, y, p) => InjectInjects(e, h, Touch(ACTION_DOWN, id, x, y, p));
    case MoveCall(id, x, y, p) => InjectInjects(e, h, Touch(ACTION_MOVE, id, x, y, p));
    case UpCall(id) => InjectInjects(e, h, Touch(ACTION_UP, id, 0, 0, 0));
    case CancelCall(id) => InjectInjects(e, h, Touch(ACTION_CANCEL, id, 0, 0, 0));
    case PinchCall(lerp, p0, p1, steps) =>
      var n := if steps < 2 then 2 else steps;
      PinchInjects(e, h, lerp, p0, p1, 1, n);
      PinchTouchAt(lerp, p0, p1, 1, n);
      var m := Meant(h, g);
      assert m.Ok? ==> m.value == PinchTouches(lerp, p0, p1, 1, n);
    case ReleaseCall =>
      ReleaseInjects(e, h, 0);
  }

  // What reaches the device ------------------------------------------------------------------

  /** The only way for a touch not to join the stream: a direct writer whose write will fail. */
  predicate Lost(e: C.Env, w: C.Writer) {
    w.direct && !e.writeOk(w.calls)
  }

  /** On every transport an injected touch joins the stream, whether it returns Ok or not, except
      exactly when a direct writer's write is about to fail: a buffered touch that reports an error
      stays pending for the next flush. */
  lemma TouchJoinsTheStreamUnlessLost(e: C.Env, s: Session, t: TouchItem)
    requires s.writer.Valid()
    ensures var (s', r) := Perform(e, s, t);
            var m := TouchMessage(s.dev, t);
            && Encoding(m) != []
            && L.GrewBy(e, s.writer, s'.writer, if Lost(e, s.writer) then [] else Encoding(m),
                        L.MessageFlushes(e, s.writer, m), r)
            && (Lost(e, s.writer) ==> r.Err?)
  {
    var m := TouchMessage(s.dev, t);
    hide Serialize, Encoding, C.Push, L.MessageFlushes;
    TouchSerializes(m.plain);
    L.PushGrows(e, s.writer, m);
    SameErrorGrew(e, s.writer, C.Push(e, s.writer, m).0, if Lost(e, s.writer) then [] else Encoding(m),
                  L.MessageFlushes(e, s.writer, m), C.Push(e, s.writer, m).1, Perform(e, s, t).1);
  }

  lemma TouchSerializes(p: Plain)
    requires p.InjectTouch?
    ensures Serialize(Other(p)).Ok? && Encoding(Other(p)) != []
  {
  }

  lemma SameErrorGrew<S, T>(
    e: C.Env, a: C.Writer, b: C.Writer, added: seq<byte>, states: seq<C.Writer>, r1: Result<S>, r2: Result<T>)
    requires r1.Err? == r2.Err? && (r1.Err? ==> r1.error == r2.error) && L.GrewBy(e, a, b, added, states, r1)
    ensures L.GrewBy(e, a, b, added, states, r2)
  {
  }

  /** The handle's tape is what its calls have put on the stream of `s0`. */
  ghost predicate OnTape(s0: Session, h: Handle) {
    h.session.dev == s0.dev && Plays(s0.writer, h.session.writer, h.tape)
  }

  lemma InjectStaysOnTape(e: C.Env, s0: Session, h: Handle, t: TouchItem)
    requires OnTape(s0, h)
    ensures OnTape(s0, Inject(e, h, t).0) && forall a: Active :: OnTape(s0, Inject(e, h, t).0.(active := a))
  {
    hide Perform, Record, Plays, C.Push;
    OkIsAccepted(e, h.session, t);
    RecordPlays(e, s0.writer, h.session.writer, TouchMessage(h.session.dev, t), h.tape);
  }

  lemma {:induction false} PinchStaysOnTape(
    e: C.Env, s0: Session, h: Handle, lerp: Lerp, p0: PinchPath, p1: PinchPath, i: nat, steps: nat)
    requires OnTape(s0, h)
    ensures OnTape(s0, PinchFrom(e, h, lerp, p0, p1, i, steps).0)
    decreases steps + 1 - i
  {
    hide Inject, OnTape;
    if i <= steps {
      InjectStaysOnTape(e, s0, h, PinchMove(lerp, p0, i, steps));
      var h1 := Inject(e, h, PinchMove(lerp, p0, i, steps)).0;
      InjectStaysOnTape(e, s0, h1, PinchMove(lerp, p1, i, steps));
      PinchStaysOnTape(e, s0, Inject(e, h1, PinchMove(lerp, p1, i, steps)).0, lerp, p0, p1, i + 1, steps);
    }
  }

  lemma {:induction false} ReleaseStaysOnTape(e: C.Env, s0: Session, h: Handle, id: nat)
    requires OnTape(s0, h)
    ensures OnTape(s0, ReleaseFrom(e, h, id).0)
    decreases MAX_POINTERS - id
  {
    hide Inject, OnTape;
    if id < MAX_POINTERS {
      var h1 := if h.active[id] then Inject(e, h, Touch(ACTION_UP, id, 0, 0, 0)).0 else h;
      if h.active[id] {
        InjectStaysOnTape(e, s0, h, Touch(ACTION_UP, id, 0, 0, 0));
        ReleaseStaysOnTape(e, s0, h1.(active := h1.active[id := false]), id + 1);
      } else {
        ReleaseStaysOnTape(e, s0, h, id + 1);
      }
    }
  }

  lemma CallStaysOnTape(e: C.Env, s0: Session, h: Handle, g: Gesture)
    requires OnTape(s0, h)
    ensures OnTape(s0, Call(e, h, g).0)
  {
    hide Inject, OnTape, PinchFrom, ReleaseFrom, FlushNow;
    match g
    case DownCall(id, x, y, p) => InjectStaysOnTape(e, s0, h, Touch(ACTION_DOWN, id, x, y, p));
    case MoveCall(id, x, y, p) => InjectStaysOnTape(e, s0, h, Touch(ACTION_MOVE, id, x, y, p));
    case UpCall(id) => InjectStaysOnTape(e, s0, h, Touch(ACTION_UP, id, 0, 0, 0));
    case CancelCall(id) => InjectStaysOnTape(e, s0, h, Touch(ACTION_CANCEL, id, 0, 0, 0));
    case PinchCall(lerp, p0, p1, steps) =>
      PinchStaysOnTape(e, s0, h, lerp, p0, p1, 1, if steps < 2 then 2 else steps);
    case ReleaseCall => ReleaseStaysOnTape(e, s0, h, 0);
    case FlushCall => FlushStaysOnTape(e, s0, h);
  }

  lemma FlushStaysOnTape(e: C.Env, s0: Session, h: Handle)
    requires OnTape(s0, h)
    ensures OnTape(s0, FlushNow(e, h).0)
  {
    hide Plays, RecordFlush, C.FlushNow;
    RecordFlushPlays(e, s0.writer, h.session.writer, h.tape);
  }

  lemma {:induction false} RunStaysOnTape(e: C.Env, s0: Session, h: Handle, gs: seq<Gesture>)
    requires OnTape(s0, h)
    ensures OnTape(s0, Run(e, h, gs))
    decreases |gs|
  {
    hide Call, OnTape;
    if gs != [] {
      CallStaysOnTape(e, s0, h, gs[0]);
      RunStaysOnTape(e, s0, Call(e, h, gs[0]).0, gs[1..]);
    }
  }

  /** Over every run on every transport the stream is where it began, followed by the tape: every
      touch that was written or buffered, and every buffer that a torn flush sent again. */
  lemma StreamIsTheTape(e: C.Env, s: Session, gs: seq<Gesture>)
    requires s.writer.Valid()
    ensures var h := Run(e, New(s), gs);
            && h.session.writer.Stream() == s.writer.Stream() + TapeBytes(s.writer.pending, h.tape.entries)
            && h.session.writer.pending == HeldBytes(s.writer.pending, h.tape.held)
  {
    hide Run;
    BlankPlays(s.writer);
    RunStaysOnTape(e, s, New(s), gs);
  }

  /** On a reliable transport nothing is injected but what the log says, so the contact discipline
      holds of the bytes the device gets. */
  ghost predicate LogIsStream(s0: Session, h: Handle) {
    && h.session.dev == s0.dev && IdealEach(s0.dev, h.log).dev == s0.dev
    && IdealEach(s0.dev, h.log).errors == []
    && Did(s0, h.session, IdealEach(s0.dev, h.log))
  }

  lemma {:induction false} IdealEachSnoc(d: Devices, items: seq<Item>, it: Item)
    ensures var o := IdealEach(d, items); var last := Ideal(o.dev, it);
            IdealEach(d, items + [it]) == Outcome(last.dev, o.msgs + last.msgs, o.errors + last.errors)
    decreases |items|
  {
    hide Ideal;
    var all := items + [it];
    if items == [] {
      assert all[1..] == [];
      var o := Ideal(d, it);
      assert o.msgs + [] == o.msgs && [] + o.msgs == o.msgs;
      assert o.errors + [] == o.errors && [] + o.errors == o.errors;
    } else {
      var o := Ideal(d, items[0]);
      assert all[1..] == items[1..] + [it];
      IdealEachSnoc(o.dev, items[1..], it);
      var rest := IdealEach(o.dev, items[1..]);
      var last := Ideal(rest.dev, it);
      assert o.msgs + (rest.msgs + last.msgs) == o.msgs + rest.msgs + last.msgs;
      assert o.errors + (rest.errors + last.errors) == o.errors + rest.errors + last.errors;
    }
  }

  lemma TouchIdeal(d: Devices, t: TouchItem)
    ensures Ideal(d, t).dev == d && Ideal(d, t).errors == []
  {
  }

  lemma InjectLogs(e: C.Env, s0: Session, h: Handle, t: TouchItem)
    requires C.Reliable(e) && LogIsStream(s0, h) && s0.writer.Valid()
    ensures var (h1, r) := Inject(e, h, t);
            r.Ok? && LogIsStream(s0, h1) && h1.active == h.active
  {
    hide Perform, Ideal, SerializeAll, Appends;
    ValidAfter(s0, h.session, IdealEach(s0.dev, h.log));
    PerformDoes(e, h.session, t);
    TouchIdeal(s0.dev, t);
    IdealEachSnoc(s0.dev, h.log, t);
    DidThenDid(s0, h.session, Perform(e, h.session, t).0, IdealEach(s0.dev, h.log), Ideal(s0.dev, t),
               IdealEach(s0.dev, h.log + [t]));
  }

  lemma ValidAfter(a: Session, b: Session, o: Outcome)
    requires Did(a, b, o)
    ensures b.writer.Valid()
  {
  }

  lemma ActiveIsNotLogged(s0: Session, h: Handle, active: Active)
    requires LogIsStream(s0, h)
    ensures LogIsStream(s0, h.(active := active))
  {
  }

  lemma {:induction false} PinchLogs(
    e: C.Env, s0: Session, h: Handle, lerp: Lerp, p0: PinchPath, p1: PinchPath, i: nat, steps: nat)
    requires C.Reliable(e) && LogIsStream(s0, h) && s0.writer.Valid()
    ensures LogIsStream(s0, PinchFrom(e, h, lerp, p0, p1, i, steps).0)
    decreases steps + 1 - i
  {
    hide Inject, LogIsStream;
    if i <= steps {
      InjectLogs(e, s0, h, PinchMove(lerp, p0, i, steps));
      var h1 := Inject(e, h, PinchMove(lerp, p0, i, steps)).0;
      InjectLogs(e, s0, h1, PinchMove(lerp, p1, i, steps));
      PinchLogs(e, s0, Inject(e, h1, PinchMove(lerp, p1, i, steps)).0, lerp, p0, p1, i + 1, steps);
    }
  }

  lemma {:induction false} ReleaseLogs(e: C.Env, s0: Session, h: Handle, id: nat)
    requires C.Reliable(e) && LogIsStream(s0, h) && s0.writer.Valid()
    ensures LogIsStream(s0, ReleaseFrom(e, h, id).0)
    decreases MAX_POINTERS - id
  {
    hide Inject, LogIsStream;
    if id < MAX_POINTERS {
      if !h.active[id] {
        ReleaseLogs(e, s0, h, id + 1);
      } else {
        var t := Touch(ACTION_UP, id, 0, 0, 0);
        InjectLogs(e, s0, h, t);
        var h1 := Inject(e, h, t).0;
        ActiveIsNotLogged(s0, h1, h1.active[id := false]);
        ReleaseLogs(e, s0, h1.(active := h1.active[id := false]), id + 1);
      }
    }
  }

  lemma CallLogs(e: C.Env, s0: Session, h: Handle, g: Gesture)
    requires C.Reliable(e) && LogIsStream(s0, h) && s0.writer.Valid()
    ensures LogIsStream(s0, Call(e, h, g).0)
  {
    hide Inject, PinchFrom, LogIsStream, C.FlushNow, ReleaseFrom;
    var t := match g
             case DownCall(id, x, y, p) => Touch(ACTION_DOWN, id, x, y, p)
             case MoveCall(id, x, y, p) => Touch(ACTION_MOVE, id, x, y, p)
             case UpCall(id) => Touch(ACTION_UP, id, 0, 0, 0)
             case CancelCall(id) => Touch(ACTION_CANCEL, id, 0, 0, 0)
             case _ => Touch(ACTION_UP, 0, 0, 0, 0);
    InjectLogs(e, s0, h, t);
    var h1 := Inject(e, h, t).0;
    if t.pointerId < MAX_POINTERS {
      ActiveIsNotLogged(s0, h1, h1.active[t.pointerId := true]);
      ActiveIsNotLogged(s0, h1, h1.active[t.pointerId := false]);
    }
    match g
    case PinchCall(lerp, p0, p1, steps) => PinchLogs(e, s0, h, lerp, p0, p1, 1, if steps < 2 then 2 else steps);
    case ReleaseCall => ReleaseLogs(e, s0, h, 0);
    case FlushCall => FlushLogs(e, s0, h);
    case _ =>
  }

  lemma FlushLogs(e: C.Env, s0: Session, h: Handle)
    requires C.Reliable(e) && LogIsStream(s0, h)
    ensures LogIsStream(s0, Call(e, h, FlushCall).0)
  {
    hide SerializeAll, IdealEach;
    L.FlushNowGrows(e, h.session.writer);
  }

  lemma {:induction false} RunLogs(e: C.Env, s0: Session, h: Handle, gs: seq<Gesture>)
    requires C.Reliable(e) && LogIsStream(s0, h) && s0.writer.Valid()
    ensures LogIsStream(s0, Run(e, h, gs))
    decreases |gs|
  {
    hide Call, LogIsStream;
    if gs != [] {
      CallLogs(e, s0, h, gs[0]);
      RunLogs(e, s0, Call(e, h, gs[0]).0, gs[1..]);
    }
  }

  /** On a reliable transport the stream grows by exactly the logged touches' messages, and those
      of each pointer obey the discipline with `active` as its state. */
  lemma DeviceSeesDisciplinedContacts(e: C.Env, s: Session, gs: seq<Gesture>)
    requires C.Reliable(e) && s.writer.Valid()
    ensures var h := Run(e, New(s), gs);
            && Disciplined(h)
            && h.session.writer.Stream() == s.writer.Stream() + SerializeAll(IdealEach(s.dev, h.log).msgs)
  {
    hide Run, SerializeAll, Disciplined;
    NewIsDisciplined(s);
    RunKeepsDiscipline(e, New(s), gs);
    assert LogIsStream(s, New(s)) by { SerializeAllNone(); }
    RunLogs(e, s, New(s), gs);
  }
}
