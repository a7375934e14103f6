/** The session as the object of src/session.rs: fields updated in place, staging arrays and
    loops, each method proved against its function in Sessions. */
module HidSessions {
  import opened Bytes
  import opened Frames
  import opened Messages
  import opened Typing
  import opened Sessions
  import opened SessionLaws
  import opened Dispatchers
  import C = Coalesce
  import W = CoalescingWriters

  const NO_REPORT: Payload := [0, 0, 0, 0, 0, 0, 0, 0, 0, 0, 0, 0, 0, 0, 0]

  class HidSession {
    const writer: W.CoalescingWriter
    var kbd: Option<Kbd>
    var mouse: bool
    var pad: Option<Pad>
    var closed: bool
    var screenW: u16
    var screenH: u16

    function Dev(): Devices
      reads this
    {
      Devices(kbd, mouse, pad, closed, screenW, screenH)
    }

    function View(): Session
      reads this, writer
    {
      Session(Dev(), writer.View())
    }

    constructor (env: C.Env, q: OpenRequest)
      ensures View() == Session(NO_DEVICES, OpenWriter(q)) && writer.env == env
      ensures fresh(writer)
    {
      if q.coalesce && !q.windowIsZero {
        writer := new W.CoalescingWriter.WithLimits(env, false, if q.hardLimit < 1 then 1 else q.hardLimit);
      } else {
        writer := new W.CoalescingWriter.WithLimits(env, true, 0);
      }
      kbd, mouse, pad, closed := None, false, None, false;
      screenW, screenH := 1080, 1920;
    }

    method Send(m: Msg) returns (r: Result<()>)
      modifies writer
      ensures (View(), r) == Sessions.Send(writer.env, old(View()), m)
    {
      hide C.Push;
      var pushed := writer.Push(m);
      r := if pushed.Err? then Err(pushed.error) else Ok(());
    }

    // Keyboard, mouse, touch and control messages ------------------------------------------

    method Key(scancode: byte, pressed: bool, mods: byte) returns (r: Result<()>)
      modifies this, writer
      ensures (View(), r) == Perform(writer.env, old(View()), KeyEdge(scancode, pressed, mods))
    {
      hide Sessions.Send, KeyReport, PressKey;
      if kbd == None { return Err(KeyboardNotOpen); }
      if scancode > 0x65 && !IsModifier(scancode) { return Err(ScancodeOutOfRange); }
      kbd := Some(PressKey(kbd.value, scancode, pressed));
      r := Send(KeyMessage(kbd.value, mods));
    }

    method Mouse(dx: i32, dy: i32, buttons: byte) returns (r: Result<()>)
      modifies this, writer
      ensures (View(), r) == Perform(writer.env, old(View()), MouseMotion(dx, dy, buttons))
    {
      hide Sessions.Send;
      if !mouse { return Err(MouseNotOpen); }
      r := Send(InputFrom(HID_ID_MOUSE, MouseReport(dx, dy, buttons)));
    }

    method MouseButtonState(state: byte) returns (r: Result<()>)
      modifies this, writer
      ensures (View(), r) == Perform(writer.env, old(View()), MouseButtons(state))
    {
      hide Sessions.Send;
      if !mouse { return Err(MouseNotOpen); }
      r := Send(InputFrom(HID_ID_MOUSE, MouseReport(0, 0, state)));
    }

    method InjectKey(action: byte, keycode: u32, repeat: u32, metastate: u32) returns (r: Result<()>)
      modifies this, writer
      ensures (View(), r) == Perform(writer.env, old(View()), AndroidKey(action, keycode, repeat, metastate))
    {
      hide Sessions.Send;
      r := Send(Other(InjectKeycode(action, keycode, repeat, metastate)));
    }

    /** Touches carry the screen size in force when they are sent. */
    method InjectTouchEvent(action: byte, pointerId: u64, x: i32, y: i32, pressure: u16) returns (r: Result<()>)
      modifies this, writer
      ensures (View(), r) == Perform(writer.env, old(View()), Touch(action, pointerId, x, y, pressure))
    {
      hide Sessions.Send;
      r := Send(Other(InjectTouch(action, pointerId, x, y, screenW, screenH, pressure)));
    }

    method InjectScrollEvent(x: i32, y: i32, hscroll: u16, vscroll: u16, buttons: u32) returns (r: Result<()>)
      modifies this, writer
      ensures (View(), r) == Perform(writer.env, old(View()), Scroll(x, y, hscroll, vscroll, buttons))
    {
      hide Sessions.Send;
      r := Send(Other(InjectScroll(x, y, screenW, screenH, hscroll, vscroll, buttons)));
    }

    method SendControl(plain: Plain) returns (r: Result<()>)
      modifies this, writer
      ensures (View(), r) == Perform(writer.env, old(View()), Control(plain))
    {
      hide Sessions.Send;
      r := Send(Other(plain));
    }

    method SetScreenSize(width: u16, height: u16)
      modifies this
      ensures View() == old(View()).(dev := old(Dev()).(screenW := width, screenH := height))
    {
      screenW, screenH := width, height;
    }

    // Gamepad --------------------------------------------------------------------------------

    method PadLookup() returns (r: Result<Pad>)
      ensures r == PadReady(Dev())
    {
      if closed { return Err(SessionClosed); }
      r := match pad
           case None => Err(GamepadNotOpen)
           case Some(p) => Ok(p);
    }

    method SetFrameRaw(frame: PadFrame) returns (r: Result<()>)
      modifies this, writer
      ensures (View(), r) == Perform(writer.env, old(View()), PadDeduped(frame))
    {
      hide Sessions.Send, FullState, C.PushEncoded;
      var ready := PadLookup();
      if ready.Err? { return Err(ready.error); }
      var (slot, report) := FullState(ready.value.slot, frame);
      pad := Some(ready.value.(slot := slot));
      if report.Some? {
        r := PushReport(report.value);
      } else {
        r := Ok(());
      }
    }

    /** The fixed-size gamepad push is the general push of the same message. */
    method PushReport(payload: Payload) returns (r: Result<()>)
      modifies writer
      ensures (View(), r) == Sessions.Send(writer.env, old(View()), UhidInput(HID_ID_GAMEPAD, 15, payload))
    {
      GamepadPushIsPush(writer.env, writer.View(), payload);
      hide C.Push, C.PushEncoded;
      var pushed := writer.PushGamepadInput(HID_ID_GAMEPAD, payload);
      r := if pushed.Err? then Err(pushed.error) else Ok(());
    }

    method SetFrameRawUnchecked(frame: PadFrame) returns (r: Result<()>)
      modifies this, writer
      ensures (View(), r) == Perform(writer.env, old(View()), PadUnchecked(frame))
    {
      hide C.Push, C.PushEncoded, Pack;
      var ready := PadLookup();
      if ready.Err? { return Err(ready.error); }
      GamepadPushIsPush(writer.env, writer.View(), Pack(frame));
      var pushed := writer.PushGamepadInputFields(HID_ID_GAMEPAD, frame);
      r := if pushed.Err? then Err(pushed.error) else Ok(());
    }

    method SetFrameRawPacked(payload: Payload) returns (r: Result<()>)
      modifies this, writer
      ensures (View(), r) == Perform(writer.env, old(View()), PadPacked(payload))
    {
      hide Sessions.Send;
      var ready := PadLookup();
      if ready.Err? { return Err(ready.error); }
      r := PushReport(payload);
    }

    method InjectRawReport(report: seq<byte>) returns (r: Result<()>)
      modifies this, writer
      ensures (View(), r) == Perform(writer.env, old(View()), PadRawReport(report))
    {
      hide C.Push;
      if report == [] { return Err(RawReportEmpty); }
      if |report| > HID_MAX_SIZE { return Err(ControlMessageTooLarge); }
      var ready := PadLookup();
      if ready.Err? { return Err(ready.error); }
      var pushed := writer.PushUhidInput(HID_ID_GAMEPAD, |report|, report);
      r := if pushed.Err? then Err(pushed.error) else Ok(());
    }

    method SetFrameRawBatch(frames: seq<PadFrame>) returns (r: Result<nat>)
      modifies this, writer
      ensures (View(), r) == Sessions.SetFrameRawBatch(writer.env, old(View()), frames)
    {
      hide C.PushBatch, InputMessages, FullState;
      if frames == [] { return Ok(0); }
      var ready := PadLookup();
      if ready.Err? { return Err(ready.error); }
      ghost var w0 := writer.View();
      var batch := new Payload[C.DIRECT_GAMEPAD_BATCH_FRAMES](_ => NO_REPORT);
      var len, sent := 0, 0;
      var slot := ready.value.slot;
      for i := 0 to |frames|
        modifies this`pad, writer, batch
        invariant len < C.DIRECT_GAMEPAD_BATCH_FRAMES
        invariant pad == Some(ready.value.(slot := slot))
        invariant DedupeFrom(writer.env, w0, ready.value.slot, [], 0, frames)
               == DedupeFrom(writer.env, writer.View(), slot, batch[..len], sent, frames[i..])
      {
        ghost var staged, rest := batch[..len], frames[i..];
        assert rest[0] == frames[i] && rest[1..] == frames[i + 1..];
        var (slot1, report) := FullState(slot, frames[i]);
        slot := slot1;
        pad := Some(ready.value.(slot := slot));
        if report.Some? {
          batch[len] := report.value;
          len, sent := len + 1, sent + 1;
          assert batch[..len] == staged + [report.value];
          if len == C.DIRECT_GAMEPAD_BATCH_FRAMES {
            assert batch[..] == batch[..len];
            var pushed := writer.PushGamepadInputBatch(HID_ID_GAMEPAD, batch[..]);
            if pushed.Err? { return Err(pushed.error); }
            len := 0;
          }
        }
      }
      if len > 0 {
        var pushed := writer.PushGamepadInputBatch(HID_ID_GAMEPAD, batch[..len]);
        if pushed.Err? { return Err(pushed.error); }
      }
      r := Ok(sent);
    }

    method SetPackedBatch(payloads: seq<Payload>) returns (r: Result<nat>)
      modifies this, writer
      ensures (View(), r) == Sessions.SetPackedBatch(writer.env, old(View()), payloads)
    {
      hide C.PushBatch, InputMessages;
      if payloads == [] { return Ok(0); }
      var ready := PadLookup();
      if ready.Err? { return Err(ready.error); }
      var pushed := writer.PushGamepadInputBatch(HID_ID_GAMEPAD, payloads);
      r := if pushed.Err? then Err(pushed.error) else Ok(|payloads|);
    }

    method SetFrameRawBatchUnchecked(frames: seq<PadFrame>) returns (r: Result<nat>)
      modifies this, writer
      ensures (View(), r) == Sessions.SetFrameRawBatchUnchecked(writer.env, old(View()), frames)
    {
      hide C.PushBatch, InputMessages, Pack;
      if frames == [] { return Ok(0); }
      var ready := PadLookup();
      if ready.Err? { return Err(ready.error); }
      var pushed := writer.PushGamepadInputBatchFromFields(HID_ID_GAMEPAD, frames);
      r := if pushed.Err? then Err(pushed.error) else Ok(|frames|);
    }

    // Calls made of several inputs ---------------------------------------------------------

    /** type_text and type_text_strict: two key edges per supported character. */
    method TypeText(text: seq<char>, strict: bool) returns (r: Result<()>)
      modifies this, writer
      ensures (View(), r) == RunScript(writer.env, old(View()), Sessions.TypeText(text, strict))
    {
      hide Perform, StrokeOf;
      for i := 0 to |text|
        invariant RunScript(writer.env, old(View()), Sessions.TypeText(text, strict))
               == RunScript(writer.env, View(), Sessions.TypeText(text[i..], strict))
      {
        ghost var rest := Sessions.TypeText(text[i + 1..], strict);
        assert text[i..][0] == text[i] && text[i..][1..] == text[i + 1..];
        var stroke := StrokeOf(text[i]);
        if stroke == None {
          if strict { return Err(UnsupportedChar); }
        } else {
          var k := stroke.value;
          ghost var down, up := KeyEdge(k.scancode, true, k.mods), KeyEdge(k.scancode, false, k.mods);
          RunItemsTwo(writer.env, View(), down, up, rest.items);
          var pressed := Key(k.scancode, true, k.mods);
          if pressed.Err? { return pressed; }
          var released := Key(k.scancode, false, k.mods);
          if released.Err? { return released; }
        }
      }
      r := Ok(());
    }

    method TapKey(scancode: byte, mods: byte) returns (r: Result<()>)
      modifies this, writer
      ensures (View(), r) == RunScript(writer.env, old(View()), KeyTap(scancode, mods))
    {
      hide Perform;
      RunScriptTwo(writer.env, View(), KeyEdge(scancode, true, mods), KeyEdge(scancode, false, 0));
      r := Key(scancode, true, mods);
      if r.Err? { return; }
      r := Key(scancode, false, 0);
    }

    method TapAndroidKey(keycode: u32, metastate: u32) returns (r: Result<()>)
      modifies this, writer
      ensures (View(), r) == RunScript(writer.env, old(View()), AndroidKeyTap(keycode, metastate))
    {
      hide Perform;
      RunScriptTwo(writer.env, View(), AndroidKey(ACTION_DOWN, keycode, 0, metastate),
                   AndroidKey(ACTION_UP, keycode, 0, metastate));
      r := InjectKey(ACTION_DOWN, keycode, 0, metastate);
      if r.Err? { return; }
      r := InjectKey(ACTION_UP, keycode, 0, metastate);
    }

    method FlushNow() returns (r: Result<nat>)
      modifies writer
      ensures (View(), r) == FlushSession(writer.env, old(View()))
    {
      hide C.FlushNow;
      r := writer.FlushNow();
    }

    // Lifecycle ------------------------------------------------------------------------------

    method OpenAll(q: OpenRequest) returns (r: Result<()>)
      requires View() == Session(NO_DEVICES, OpenWriter(q))
      modifies this, writer
      ensures (View(), r) == OpenDevices(writer.env, q)
    {
      hide Sessions.Send;
      if q.kbd {
        r := Send(CreateKeyboard(q));
        if r.Err? { return; }
        kbd := Some(Kbd({}));
      }
      if q.mouse {
        r := Send(CreateMouse(q));
        if r.Err? { return; }
        mouse := true;
      }
      if q.pad {
        r := Send(CreateGamepad(q));
        if r.Err? { return; }
        pad := Some(Pad(FRESH_SLOT, true));
      }
      r := Ok(());
    }

    method TryCloseAll() returns (r: Result<()>)
      modifies this, writer
      ensures (View(), r) == CloseAll(writer.env, old(View()))
    {
      hide Sessions.Send;
      if closed { return Ok(()); }
      if kbd.Some? {
        r := Send(UhidDestroy(HID_ID_KEYBOARD));
        if r.Err? { return; }
      }
      if mouse {
        r := Send(UhidDestroy(HID_ID_MOUSE));
        if r.Err? { return; }
      }
      if pad.Some? {
        if pad.value.bound {
          pad := Some(pad.value.(bound := false));
          r := Send(UhidDestroy(HID_ID_GAMEPAD));
          if r.Err? { return; }
        }
        pad := None;
      }
      closed := true;
      r := Ok(());
    }

    method Drop()
      modifies this, writer
      ensures View() == DropSession(writer.env, old(View()))
    {
      hide CloseAll, C.FlushNow;
      if !closed {
        var ignored := TryCloseAll();
      }
      var flushed := FlushNow();
    }
  }

  lemma RunItemsTwo(e: C.Env, s: Session, a: Item, b: Item, rest: seq<Item>)
    ensures var (s1, r1) := Perform(e, s, a);
            var (s2, r2) := Perform(e, s1, b);
            RunItems(e, s, [a, b] + rest) ==
            if r1.Err? then (s1, r1) else if r2.Err? then (s2, r2) else RunItems(e, s2, rest)
  {
    hide Perform;
    var all := [a, b] + rest;
    assert all[1..] == [b] + rest && all[1..][1..] == rest;
  }

  lemma RunScriptTwo(e: C.Env, s: Session, a: Item, b: Item)
    ensures var (s1, r1) := Perform(e, s, a);
            RunScript(e, s, Script([a, b], None)) == if r1.Err? then (s1, r1) else Perform(e, s1, b)
  {
    hide Perform;
    var none: seq<Item> := [];
    RunItemsTwo(e, s, a, b, none);
    assert [a, b] + none == [a, b];
    var r2 := Perform(e, Perform(e, s, a).0, b).1;
    assert r2.Ok? ==> r2.value == ();
  }

  /** Opening a session; on failure it is dropped, which destroys what was created. */
  method OpenSession(env: C.Env, q: OpenRequest) returns (s: HidSession, r: Result<()>)
    ensures (s.View(), r) == Open(env, q) && s.writer.env == env
    ensures fresh(s) && fresh(s.writer)
  {
    hide OpenDevices, DropSession;
    s := new HidSession(env, q);
    r := s.OpenAll(q);
    if r.Err? {
      s.Drop();
    }
  }
}
