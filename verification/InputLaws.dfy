/** What each input puts on the stream, told from the outside: the bytes of keyboard, mouse and gamepad
    reports, the text a host reads from typed strokes, and the screen size that touches carry
    (src/session.rs, src/hid/keyboard.rs, src/hid/mouse.rs). */
module InputLaws {
  import opened Bytes
  import opened Frames
  import opened Messages
  import opened Sessions
  import opened SessionLaws
  import Typing
  import D = Dispatchers
  import DL = DispatcherLaws
  import C = Coalesce
  import WL = WriterLaws

  // The keyboard -----------------------------------------------------------------------------

  const LAST_KEY := 0x65

  predicate IsEdgeOf(it: Item, key: int) {
    it.KeyEdge? && it.scancode == key
  }

  /** Of all the inputs so far, the last edge of this ordinary key was a press. */
  predicate IsDown(items: seq<Item>, key: int) {
    exists i :: 0 <= i < |items| && IsEdgeOf(items[i], key) && items[i].pressed
                && forall j :: i < j < |items| ==> !IsEdgeOf(items[j], key)
  }

  /** `keys` lists the keys that are down, in increasing order. */
  ghost predicate ListsKeysDown(keys: seq<byte>, items: seq<Item>) {
    && Increasing(keys)
    && (forall k: byte :: k in keys <==> k <= LAST_KEY && IsDown(items, k))
  }

  /** A keyboard report: modifiers, a zero, then six key bytes and padding. */
  ghost predicate ShowsKeys(m: Msg, mods: byte, keys: seq<byte>) {
    && m.UhidInput? && m.id == HID_ID_KEYBOARD && m.size == 8 && |m.data| == 15
    && m.data[0] == mods && m.data[1] == 0
    && (if |keys| > 6 then forall i :: 2 <= i < 8 ==> m.data[i] == 1
        else forall i :: 2 <= i < 8 ==> m.data[i] == if i - 2 < |keys| then keys[i - 2] else 0)
  }

  predicate KnownScancode(scancode: byte) {
    scancode <= LAST_KEY || 0xE0 <= scancode <= 0xE7
  }

  lemma IsDownSnoc(items: seq<Item>, it: Item, key: int)
    ensures IsDown(items + [it], key) <==> if IsEdgeOf(it, key) then it.pressed else IsDown(items, key)
  {
    var all := items + [it];
    if IsEdgeOf(it, key) {
      if it.pressed {
        assert IsEdgeOf(all[|items|], key) && all[|items|].pressed;
      }
      if i :| 0 <= i < |all| && IsEdgeOf(all[i], key) && all[i].pressed
              && forall j :: i < j < |all| ==> !IsEdgeOf(all[j], key) {
        assert IsEdgeOf(all[|items|], key) && i == |items|;
      }
    } else {
      if i :| 0 <= i < |items| && IsEdgeOf(items[i], key) && items[i].pressed
              && forall j :: i < j < |items| ==> !IsEdgeOf(items[j], key) {
        assert IsEdgeOf(all[i], key) && all[i].pressed;
        assert forall j :: i < j < |all| ==> !IsEdgeOf(all[j], key);
      }
      if i :| 0 <= i < |all| && IsEdgeOf(all[i], key) && all[i].pressed
              && forall j :: i < j < |all| ==> !IsEdgeOf(all[j], key) {
        assert i < |items| && items[i] == all[i];
        assert forall j :: i < j < |items| ==> all[j] == items[j];
      }
    }
  }

  /** What the driver must hold after the inputs. */
  ghost predicate HoldsTheKeysDown(k: Kbd, items: seq<Item>) {
    forall key: byte :: key in k.held <==> key <= LAST_KEY && IsDown(items, key)
  }

  lemma NothingDown()
    ensures HoldsTheKeysDown(Kbd({}), [])
  {
  }

  lemma OneInput(d: Devices, items: seq<Item>, it: Item)
    requires d.kbd.Some? && HoldsTheKeysDown(d.kbd.value, items)
    ensures var d' := Plan(d, it).0; d'.kbd.Some? && HoldsTheKeysDown(d'.kbd.value, items + [it])
  {
    hide IsDown, KeyReport, MouseReport, FullState, Pack;
    forall key: byte
      ensures IsDown(items + [it], key) <==> if IsEdgeOf(it, key) then it.pressed else IsDown(items, key)
    {
      IsDownSnoc(items, it, key);
    }
  }

  lemma IdealDevices(d: Devices, it: Item)
    ensures Ideal(d, it).dev == Plan(d, it).0
  {
    hide Plan, Serialize;
  }

  lemma {:induction false} DriverHoldsTheKeysDown(d: Devices, before: seq<Item>, items: seq<Item>)
    requires d.kbd.Some? && HoldsTheKeysDown(d.kbd.value, before)
    ensures var d' := IdealEach(d, items).dev; d'.kbd.Some? && HoldsTheKeysDown(d'.kbd.value, before + items)
    decreases |items|
  {
    hide Ideal, Plan, HoldsTheKeysDown;
    if items == [] {
      assert before + [] == before;
    } else {
      OneInput(d, before, items[0]);
      IdealDevices(d, items[0]);
      DriverHoldsTheKeysDown(Ideal(d, items[0]).dev, before + [items[0]], items[1..]);
      assert before + [items[0]] + items[1..] == before + items;
    }
  }

  ghost predicate Increasing(keys: seq<byte>) {
    forall i, j :: 0 <= i < j < |keys| ==> keys[i] < keys[j]
  }

  lemma IncreasingCons(key: byte, rest: seq<byte>)
    requires Increasing(rest) && forall k :: k in rest ==> key < k
    ensures Increasing([key] + rest)
    ensures forall k: byte :: k in [key] + rest <==> k == key || k in rest
  {
    var keys := [key] + rest;
    forall i, j | 0 <= i < j < |keys|
      ensures keys[i] < keys[j]
    {
      assert keys[j] == rest[j - 1] && rest[j - 1] in rest;
    }
  }

  lemma {:induction false} HeldFromLists(held: set<byte>, from: nat)
    ensures Increasing(HeldFrom(held, from))
    ensures forall k: byte :: k in HeldFrom(held, from) <==> from <= k <= LAST_KEY && k in held
    decreases 0x66 - from
  {
    hide Increasing;
    if from > 0x65 {
      NoneIncreasing();
    } else {
      HeldFromLists(held, from + 1);
      var rest := HeldFrom(held, from + 1);
      if from in held {
        IncreasingCons(from as byte, rest);
      } else {
        assert [] + rest == rest;
      }
    }
  }

  lemma NoneIncreasing()
    ensures Increasing([])
  {
  }

  lemma HeldIsListed(k: Kbd, items: seq<Item>)
    requires HoldsTheKeysDown(k, items)
    ensures ListsKeysDown(HeldFrom(k.held, 0), items)
  {
    hide HeldFrom, IsDown;
    HeldFromLists(k.held, 0);
  }

  lemma ReportShowsKeys(k: Kbd, mods: byte, keys: seq<byte>)
    requires keys == HeldFrom(k.held, 0)
    ensures ShowsKeys(KeyMessage(k, mods), mods, keys)
  {
    hide HeldFrom;
  }

  lemma ReportSerializes(m: Msg)
    requires m.UhidInput? && m.size <= 15 && m.size <= |m.data|
    ensures Serialize(m).Ok?
  {
  }

  /** Over any inputs of an opened session, in any order: a key edge sends one report. Its first byte is
      the edge's modifiers, its second zero, and its six key bytes list in increasing order exactly
      the ordinary keys whose last edge was a press, padded with zeros, or are all roll-over codes if
      there are more than six. */
  lemma KeyReportShowsTheKeysDown(d: Devices, items: seq<Item>, scancode: byte, pressed: bool, mods: byte)
    returns (keys: seq<byte>)
    requires d.kbd == Some(Kbd({})) && KnownScancode(scancode)
    ensures var edge := KeyEdge(scancode, pressed, mods);
            var o := Ideal(IdealEach(d, items).dev, edge);
            && o.errors == [] && |o.msgs| == 1 && ShowsKeys(o.msgs[0], mods, keys)
            && ListsKeysDown(keys, items + [edge])
  {
    hide HeldFrom, KeyReport, IsDown, IdealEach, Ideal, Plan, ShowsKeys, HoldsTheKeysDown, ListsKeysDown, KeyMessage;
    var edge := KeyEdge(scancode, pressed, mods);
    NothingDown();
    DriverHoldsTheKeysDown(d, [], items);
    assert [] + items == items;
    var d1 := IdealEach(d, items).dev;
    OneInput(d1, items, edge);
    var k := Plan(d1, edge).0.kbd.value;
    keys := HeldFrom(k.held, 0);
    HeldIsListed(k, items + [edge]);
    ReportShowsKeys(k, mods, keys);
    EdgeSendsItsReport(d1, scancode, pressed, mods);
  }

  lemma EdgeSendsItsReport(d: Devices, scancode: byte, pressed: bool, mods: byte)
    requires d.kbd.Some? && KnownScancode(scancode)
    ensures var edge := KeyEdge(scancode, pressed, mods);
            var k := Plan(d, edge).0.kbd;
            k.Some? && Ideal(d, edge).errors == [] && Ideal(d, edge).msgs == [KeyMessage(k.value, mods)]
  {
    hide KeyReport, PressKey;
    var k := PressKey(d.kbd.value, scancode, pressed);
    KeyReportLength(k.held, mods);
    ReportSerializes(KeyMessage(k, mods));
  }

  lemma KeyReportLength(held: set<byte>, mods: byte)
    ensures |KeyReport(held, mods)| == 8
  {
  }

  /** Other scancodes, and keys without a keyboard, are refused and change nothing. */
  lemma RefusedKeys(d: Devices, scancode: byte, pressed: bool, mods: byte)
    requires d.kbd == None || !KnownScancode(scancode)
    ensures Ideal(d, KeyEdge(scancode, pressed, mods))
         == Outcome(d, [], [if d.kbd == None then KeyboardNotOpen else ScancodeOutOfRange])
  {
  }

  // Typing -----------------------------------------------------------------------------------

  /** What a US-layout host types when a report arrives: the character of the one key that is down with
      these modifiers, nothing when all keys are up. */
  function Typed(m: Msg): seq<char> {
    if m.UhidInput? && m.id == HID_ID_KEYBOARD && m.size == 8 && |m.data| >= 8 && m.data[2] != 0 then
      match Typing.CharOf(Typing.Stroke(m.data[2], m.data[0]))
      case Some(c) => [c]
      case None => []
    else []
  }

  function TypedAll(ms: seq<Msg>): seq<char> {
    if ms == [] then [] else Typed(ms[0]) + TypedAll(ms[1..])
  }

  /** What typing should produce: everything supported, or, if strict, everything before the first
      unsupported character. */
  function Typable(text: seq<char>, strict: bool): seq<char> {
    if text == [] then []
    else if Typing.StrokeOf(text[0]).Some? then [text[0]] + Typable(text[1..], strict)
    else if strict then []
    else Typable(text[1..], strict)
  }

  predicate NoKeyDown(d: Devices) {
    d.kbd == Some(Kbd({}))
  }

  lemma {:induction false} HeldOne(key: byte, from: nat)
    requires key <= LAST_KEY
    ensures HeldFrom({key}, from) == if from <= key then [key] else []
    ensures HeldFrom({}, from) == []
    decreases 0x66 - from
  {
    if from <= 0x65 {
      HeldOne(key, from + 1);
    }
  }

  lemma StrokeKey(c: char)
    requires Typing.StrokeOf(c).Some?
    ensures 0 < Typing.StrokeOf(c).value.scancode <= LAST_KEY
    ensures Typing.CharOf(Typing.StrokeOf(c).value) == Some(c)
  {
    Typing.StrokeRoundTrip(c);
    hide Typing.Symbol, Typing.ShiftedDigit;
    Typing.ShiftedDigitRoundTrip(c, 0);
    Typing.SymbolRoundTrip(c, 0);
  }

  /** One key down and up again, with nothing else down. */
  lemma PressAndRelease(d: Devices, key: byte, mods: byte, after: byte)
    requires NoKeyDown(d) && 0 < key <= LAST_KEY
    ensures var down := Ideal(d, KeyEdge(key, true, mods));
            var up := Ideal(down.dev, KeyEdge(key, false, after));
            && down.errors == up.errors == [] && up.dev == d
            && |down.msgs| == 1 && ShowsKeys(down.msgs[0], mods, [key])
            && |up.msgs| == 1 && ShowsKeys(up.msgs[0], after, [])
  {
    HeldOne(key, 0);
    hide HeldFrom;
    var k: set<byte> := {} + {key};
    assert k == {key} && k - {key} == {};
    ReportShowsKeys(Kbd({key}), mods, [key]);
    ReportShowsKeys(Kbd({}), after, []);
    ReportSerializes(KeyMessage(Kbd({key}), mods));
    ReportSerializes(KeyMessage(Kbd({}), after));
    assert PressKey(Kbd({}), key, true) == Kbd({key}) && PressKey(Kbd({key}), key, false) == Kbd({});
    assert d.(kbd := Some(Kbd({}))) == d;
  }

  lemma TypedShown(m: Msg, mods: byte, keys: seq<byte>)
    requires ShowsKeys(m, mods, keys) && |keys| <= 1
    ensures Typed(m) == if keys == [] || keys[0] == 0 then []
                        else match Typing.CharOf(Typing.Stroke(keys[0], mods)) case Some(c) => [c] case None => []
  {
  }

  /** A host reads back exactly the text, from a keyboard with no key down, and no key is left down:
      all of it if it is supported, without the unsupported characters if the call is lenient, and up
      to the first of them, with an error, if it is strict. */
  lemma {:induction false} HostReadsTheText(d: Devices, text: seq<char>, strict: bool)
    requires NoKeyDown(d)
    ensures var o := IdealScript(d, TypeText(text, strict));
            && TypedAll(o.msgs) == Typable(text, strict) && o.dev == d
            && |o.msgs| == 2 * |Typable(text, strict)|
            && o.errors == if strict && Typable(text, strict) != text then [UnsupportedChar] else []
    decreases |text|
  {
    hide Ideal, Typed, Typing.StrokeOf, Typing.CharOf;
    if text != [] {
      HostReadsTheText(d, text[1..], strict);
      var k := Typing.StrokeOf(text[0]);
      if k.Some? {
        StrokeKey(text[0]);
        ReadsOneMore(d, text, strict);
      } else {
        LenientIsShorter(text[1..], strict);
      }
    }
  }

  lemma {:induction false} LenientIsShorter(text: seq<char>, strict: bool)
    ensures |Typable(text, strict)| <= |text|
  {
    hide Typing.StrokeOf;
    if text != [] {
      LenientIsShorter(text[1..], strict);
    }
  }

  lemma ReadsOneMore(d: Devices, text: seq<char>, strict: bool)
    requires NoKeyDown(d) && text != [] && Typing.StrokeOf(text[0]).Some?
    ensures var o, rest := IdealScript(d, TypeText(text, strict)), IdealScript(d, TypeText(text[1..], strict));
            && TypedAll(o.msgs) == [text[0]] + TypedAll(rest.msgs) && o.dev == rest.dev
            && |o.msgs| == 2 + |rest.msgs| && o.errors == rest.errors
  {
    hide Ideal, Typing.StrokeOf, Typing.CharOf, ShowsKeys, Typed;
    var k := Typing.StrokeOf(text[0]).value;
    StrokeKey(text[0]);
    PressAndRelease(d, k.scancode, k.mods, k.mods);
    var press, release := KeyEdge(k.scancode, true, k.mods), KeyEdge(k.scancode, false, k.mods);
    var down := Ideal(d, press);
    var up := Ideal(down.dev, release);
    TypedShown(down.msgs[0], k.mods, [k.scancode]);
    TypedShown(up.msgs[0], k.mods, []);
    var later := TypeText(text[1..], strict).items;
    TwoThenRest(d, press, release, later);
    hide IdealUntilError, TypedAll;
    TypedTwo(down.msgs[0], up.msgs[0], IdealUntilError(d, later).msgs);
    assert [text[0]] + [] == [text[0]];
  }

  lemma TypedTwo(a: Msg, b: Msg, rest: seq<Msg>)
    ensures TypedAll([a, b] + rest) == Typed(a) + Typed(b) + TypedAll(rest)
  {
    hide Typed;
    var ms := [a, b] + rest;
    assert ms[1..] == [b] + rest && ms[1..][1..] == rest;
    assert TypedAll(ms) == Typed(a) + (Typed(b) + TypedAll(rest));
  }

  /** Two inputs that succeed with one message each, then the rest. */
  lemma TwoThenRest(d: Devices, a: Item, b: Item, later: seq<Item>)
    requires var first := Ideal(d, a); first.errors == [] && |first.msgs| == 1
    requires var second := Ideal(Ideal(d, a).dev, b); second.errors == [] && |second.msgs| == 1
    ensures var first := Ideal(d, a);
            var second := Ideal(first.dev, b);
            var rest := IdealUntilError(second.dev, later);
            IdealUntilError(d, [a, b] + later)
              == Outcome(rest.dev, [first.msgs[0], second.msgs[0]] + rest.msgs, rest.errors)
  {
    hide Ideal;
    var items := [a, b] + later;
    assert items[1..] == [b] + later && items[1..][1..] == later;
    var first := Ideal(d, a);
    var second := Ideal(first.dev, b);
    var rest := IdealUntilError(second.dev, later);
    assert first.msgs + (second.msgs + rest.msgs) == [first.msgs[0], second.msgs[0]] + rest.msgs;
  }

  /** A tap on a keyboard with no key down: the key alone with the modifiers, then nothing at all. */
  lemma TapPressesAndReleases(d: Devices, key: byte, mods: byte)
    requires NoKeyDown(d) && 0 < key <= LAST_KEY
    ensures var o := IdealScript(d, KeyTap(key, mods));
            && o.errors == [] && o.dev == d && |o.msgs| == 2
            && ShowsKeys(o.msgs[0], mods, [key]) && ShowsKeys(o.msgs[1], 0, [])
  {
    PressAndRelease(d, key, mods, 0);
    hide Ideal, ShowsKeys;
    var press, release := KeyEdge(key, true, mods), KeyEdge(key, false, 0);
    TwoThenRest(d, press, release, []);
    assert [press, release] + [] == [press, release];
    assert IdealUntilError(d, []) == Outcome(d, [], []);
  }

  // The mouse --------------------------------------------------------------------------------

  /** A byte as a signed number. */
  function Signed(b: byte): int {
    if b >= 0x80 then b - 0x100 else b
  }

  /** The signed byte nearest to `v` in the range that reports use. */
  predicate Nearest(b: byte, v: int) {
    && -127 <= Signed(b) <= 127
    && (-127 <= v <= 127 ==> Signed(b) == v) && (v > 127 ==> Signed(b) == 127) && (v < -127 ==> Signed(b) == -127)
  }

  /** A mouse report: the five buttons, the motion as near as a byte can say it, and no wheel. */
  predicate ShowsMouse(m: Msg, dx: int, dy: int, buttons: byte) {
    && m.UhidInput? && m.id == HID_ID_MOUSE && m.size == 5 && |m.data| >= 5
    && m.data[0] < 32 && (buttons - m.data[0]) % 32 == 0
    && Nearest(m.data[1], dx) && Nearest(m.data[2], dy) && m.data[3] == 0 && m.data[4] == 0
  }

  /** Motion and button calls each send one such report, a click without motion. Neither changes any
      device, and without a mouse both are refused. */
  lemma MouseShowsMotionAndButtons(d: Devices, dx: i32, dy: i32, buttons: byte)
    ensures var motion, click := Ideal(d, MouseMotion(dx, dy, buttons)), Ideal(d, Item.MouseButtons(buttons));
            && motion.dev == click.dev == d
            && (if d.mouse then
                  && motion.errors == click.errors == [] && |motion.msgs| == |click.msgs| == 1
                  && ShowsMouse(motion.msgs[0], dx, dy, buttons) && ShowsMouse(click.msgs[0], 0, 0, buttons)
                else motion.msgs == click.msgs == [] && motion.errors == click.errors == [MouseNotOpen])
  {
    if d.mouse {
      ReportSerializes(InputFrom(HID_ID_MOUSE, MouseReport(dx, dy, buttons)));
      ReportSerializes(InputFrom(HID_ID_MOUSE, MouseReport(0, 0, buttons)));
    }
  }

  // Screen inputs ----------------------------------------------------------------------------

  /** The last size set, or the one a session opens with. */
  function ScreenInForce(cmds: seq<D.Cmd>): (u16, u16) {
    if cmds == [] then (1080, 1920)
    else
      match cmds[|cmds| - 1]
      case SetScreenSize(w, h) => (w, h)
      case _ => ScreenInForce(cmds[..|cmds| - 1])
  }

  lemma PlanKeepsScreen(d: Devices, it: Item)
    ensures var d' := Plan(d, it).0; d'.screenW == d.screenW && d'.screenH == d.screenH && d'.closed == d.closed
  {
    hide FullState, Pack, KeyReport, MouseReport, PressKey;
  }

  lemma {:induction false} EachKeepsScreen(d: Devices, items: seq<Item>)
    ensures var d1, d2 := IdealEach(d, items).dev, IdealUntilError(d, items).dev;
            && d1.screenW == d2.screenW == d.screenW && d1.screenH == d2.screenH == d.screenH
    decreases |items|
  {
    hide Ideal, Plan;
    if items != [] {
      IdealDevices(d, items[0]);
      PlanKeepsScreen(d, items[0]);
      EachKeepsScreen(Ideal(d, items[0]).dev, items[1..]);
    }
  }

  lemma CommandScreen(d: Devices, cmd: D.Cmd)
    ensures var d' := DL.IdealCmd(d, cmd).dev;
            (d'.screenW, d'.screenH) == match cmd case SetScreenSize(w, h) => (w, h) case _ => (d.screenW, d.screenH)
  {
    hide IdealEach, IdealUntilError;
    EachKeepsScreen(d, DL.ItemsOf(cmd));
    match cmd
    case Text(text, strict) => EachKeepsScreen(d, TypeText(text, strict).items);
    case Tap(scancode, mods) => EachKeepsScreen(d, KeyTap(scancode, mods).items);
    case AndroidTap(k, m) => EachKeepsScreen(d, AndroidKeyTap(k, m).items);
    case _ =>
  }

  lemma {:induction false} RunScreen(d: Devices, cmds: seq<D.Cmd>, before: seq<D.Cmd>)
    requires !DL.Closes(cmds) && (d.screenW, d.screenH) == ScreenInForce(before)
    ensures var d' := DL.IdealRun(d, cmds).dev; (d'.screenW, d'.screenH) == ScreenInForce(before + cmds)
    decreases |cmds|
  {
    hide DL.IdealCmd;
    if cmds == [] {
      assert before + [] == before;
    } else {
      var more := before + [cmds[0]];
      assert more[..|more| - 1] == before;
      CommandScreen(d, cmds[0]);
      assert forall i :: 0 <= i < |cmds[1..]| ==> cmds[1..][i] == cmds[i + 1];
      assert !cmds[0].Close? && !DL.Closes(cmds[1..]);
      RunScreen(DL.IdealCmd(d, cmds[0]).dev, cmds[1..], more);
      assert more + cmds[1..] == before + cmds;
    }
  }

  /** After any commands of a session, a touch and a scroll carry their own fields and the screen size
      last set, 1080 by 1920 if none was. */
  lemma TouchCarriesTheScreenInForce(q: OpenRequest, cmds: seq<D.Cmd>, action: byte, id: u64, x: i32, y: i32,
                                     pressure: u16, h: u16, v: u16, buttons: u32)
    requires !DL.Closes(cmds)
    ensures var d := DL.IdealRun(Opened(q), cmds).dev;
            var (w, height) := ScreenInForce(cmds);
            && Ideal(d, Touch(action, id, x, y, pressure)).msgs
               == [Other(InjectTouch(action, id, x, y, w, height, pressure))]
            && Ideal(d, Scroll(x, y, h, v, buttons)).msgs == [Other(InjectScroll(x, y, w, height, h, v, buttons))]
            && Ideal(d, Touch(action, id, x, y, pressure)).errors == Ideal(d, Scroll(x, y, h, v, buttons)).errors == []
  {
    hide DL.IdealRun;
    RunScreen(Opened(q), cmds, []);
    assert [] + cmds == cmds;
  }

  /** Android keys and control messages are sent as they are, whatever is open. */
  lemma PlainInputs(d: Devices, action: byte, keycode: u32, repeat: u32, metastate: u32, p: Plain)
    ensures Ideal(d, AndroidKey(action, keycode, repeat, metastate))
         == Outcome(d, [Other(InjectKeycode(action, keycode, repeat, metastate))], [])
    ensures var o := Ideal(d, Control(p));
            && o.dev == d
            && (if Serialize(Other(p)).Ok? then o == Outcome(d, [Other(p)], [])
                else o == Outcome(d, [], [Serialize(Other(p)).error]))
  {
  }

  // The gamepad ------------------------------------------------------------------------------

  /** A gamepad report on the stream. */
  predicate ShowsReport(m: Msg, report: seq<byte>) {
    m.UhidInput? && m.id == HID_ID_GAMEPAD && m.size == |report| && m.data[..] == report
  }

  /** Unchecked frames are always sent and mean the frame; packed ones and raw reports are sent byte for
      byte. Each is refused on a closed session or without a gamepad, and raw reports first for their
      length. None changes a device. */
  lemma GamepadReports(d: Devices, f: PadFrame, p: Payload, report: seq<byte>)
    ensures var unchecked, packed := Ideal(d, PadUnchecked(f)), Ideal(d, PadPacked(p));
            var raw := Ideal(d, PadRawReport(report));
            var ready := !d.closed && d.pad.Some?;
            var refusal := if d.closed then SessionClosed else GamepadNotOpen;
            && unchecked.dev == packed.dev == raw.dev == d
            && (ready ==>
                  && unchecked.errors == packed.errors == [] && |unchecked.msgs| == |packed.msgs| == 1
                  && ShowsReport(packed.msgs[0], p)
                  && unchecked.msgs[0].UhidInput? && |unchecked.msgs[0].data| == 15
                  && ShowsReport(unchecked.msgs[0], unchecked.msgs[0].data)
                  && Decode(unchecked.msgs[0].data) == Normalize(f))
            && (!ready ==> unchecked == packed == Outcome(d, [], [refusal]))
            && (if report == [] then raw == Outcome(d, [], [RawReportEmpty])
                else if |report| > 15 then raw == Outcome(d, [], [ControlMessageTooLarge])
                else if !ready then raw == Outcome(d, [], [refusal])
                else raw.errors == [] && |raw.msgs| == 1 && ShowsReport(raw.msgs[0], report))
  {
    DecodePack(f);
    hide Pack, Decode, Normalize;
    ReportSerializes(UhidInput(HID_ID_GAMEPAD, 15, Pack(f)));
    ReportSerializes(UhidInput(HID_ID_GAMEPAD, 15, p));
    if 0 < |report| <= 15 {
      ReportSerializes(UhidInput(HID_ID_GAMEPAD, |report|, report));
      assert report[..] == report;
    }
  }

  /** A deduplicated frame is suppressed exactly if the last one agreed with it in sticks, triggers,
      buttons and pressed directions; otherwise its report means the frame. */
  lemma DedupedFrameIsSentIff(d: Devices, last: PadFrame, f: PadFrame)
    requires !d.closed && d.pad.Some? && d.pad.value.slot == SlotOf(last)
    ensures var o := Ideal(d, PadDeduped(f));
            && o.errors == [] && o.dev == d.(pad := Some(d.pad.value.(slot := SlotOf(f))))
            && (o.msgs == [] <==> Normalize(f) == Normalize(last) && Dpad(f.buttons) == Dpad(last.buttons))
            && (o.msgs != [] ==>
                  && |o.msgs| == 1 && o.msgs[0].UhidInput? && |o.msgs[0].data| == 15
                  && ShowsReport(o.msgs[0], o.msgs[0].data) && Decode(o.msgs[0].data) == Normalize(f))
  {
    DecodePack(f);
    SlotPayloadIsPack(f);
    SameSlotIff(last, f);
    hide Pack, Decode, Normalize, SlotOf, SlotPayload, Dpad;
    ReportSerializes(UhidInput(HID_ID_GAMEPAD, 15, Pack(f)));
  }

  lemma SameSlotIff(g: PadFrame, f: PadFrame)
    ensures SlotOf(g) == SlotOf(f) <==> Normalize(f) == Normalize(g) && Dpad(f.buttons) == Dpad(g.buttons)
  {
    ButtonBits(f.buttons);
    ButtonBits(g.buttons);
  }

  lemma ButtonBits(b: u32)
    ensures b % 0x10_0000 == Dpad(b) * 0x1_0000 + b % 0x1_0000
  {
  }

  /** One group of up to 32 reports on a direct writer is a single flush. */
  lemma OneGroup(e: C.Env, w: C.Writer, staged: seq<Payload>)
    requires C.Reliable(e) && w.direct && 0 < |staged| <= 32
    ensures var (w', r) := C.PushBatch(e, w, InputMessages(HID_ID_GAMEPAD, staged));
            r.Ok? && w'.direct && w'.flushes == w.flushes + 1
  {
    hide InputMessage, C.DirectBatch;
    var parts := InputMessages(HID_ID_GAMEPAD, staged);
    if |parts| > 1 {
      DirectGroup(e, w.(pushed := w.pushed + |parts|), parts);
    }
  }

  lemma DirectGroup(e: C.Env, w: C.Writer, parts: seq<seq<byte>>)
    requires C.Reliable(e) && w.direct
    ensures var (w', r) := C.DirectBatch(e, w, parts); r.Ok? && w'.direct && w'.flushes == w.flushes + 1
  {
    hide C.DirectChunks, Concat;
    WL.ChunkWrites(e, w, parts);
    var n := WL.DirectChunksTraced(e, w, parts);
    DirectChunksKeepMode(e, w, parts);
  }

  lemma {:induction false} DirectChunksKeepMode(e: C.Env, w: C.Writer, parts: seq<seq<byte>>)
    ensures C.DirectChunks(e, w, parts).0.direct == w.direct
    decreases |parts|
  {
    hide Concat;
    if parts != [] {
      var n := Min(|parts|, C.DIRECT_GAMEPAD_BATCH_FRAMES);
      DirectChunksKeepMode(e, C.WriteAll(e, w, Concat(parts[..n])).0, parts[n..]);
    }
  }

  /** What deduplicated frames cost on a direct writer: one flush per 32 reports. */
  lemma {:induction false} DedupedBatchCosts(
    e: C.Env, w: C.Writer, slot: Slot, staged: seq<Payload>, sent: nat, frames: seq<PadFrame>)
    requires C.Reliable(e) && w.direct && |staged| < 32
    ensures DedupeFrom(e, w, slot, staged, sent, frames).0.flushes
         == w.flushes + WL.ChunksOf(|staged| + |Reports(slot, frames).1|)
    decreases |frames|
  {
    hide C.PushBatch, FullState, InputMessages;
    if frames == [] {
      if staged != [] {
        OneGroup(e, w, staged);
      }
    } else {
      var (slot1, report) := FullState(slot, frames[0]);
      if report.None? {
        DedupedBatchCosts(e, w, slot1, staged, sent, frames[1..]);
      } else {
        var staged1 := staged + [report.value];
        if |staged1| == 32 {
          OneGroup(e, w, staged1);
          var w1 := C.PushBatch(e, w, InputMessages(HID_ID_GAMEPAD, staged1)).0;
          DedupedBatchCosts(e, w1, slot1, [], sent + 1, frames[1..]);
        } else {
          DedupedBatchCosts(e, w, slot1, staged1, sent + 1, frames[1..]);
        }
      }
    }
  }

  /** A fresh slot shows the frame with nothing pressed and everything centred. */
  lemma FreshSlotIsNeutral()
    ensures SlotOf(PadFrame(0, 0, 0, 0, 0, 0, 0)) == FRESH_SLOT
  {
  }
}
