/** Gamepad frames: the 15-byte HID report, the hat switch, and how a receiver reads a frame
    back from the wire (src/session.rs, src/types.rs, src/hid/gamepad.rs). */
module Frames {
  import opened Bytes

  const GAMEPAD_MESSAGE_BYTES := 20
  const INPUT_TAG: byte := 13

  type Payload = p: seq<byte> | |p| == 15 witness [0, 0, 0, 0, 0, 0, 0, 0, 0, 0, 0, 0, 0, 0, 0]

  datatype PadFrame = PadFrame(
    buttons: u32, leftX: i16, leftY: i16, rightX: i16, rightY: i16, leftTrigger: i16, rightTrigger: i16)

  // Hat switch ---------------------------------------------------------------------------

  const DPAD_HAT_LOOKUP: seq<byte> := [0, 1, 5, 0, 7, 8, 6, 0, 3, 2, 4, 0, 0, 0, 0, 0]

  /** Bits 16 to 19 of the button word: up, down, left, right. */
  function Dpad(buttons: u32): (r: nat)
    ensures r < 16
  {
    buttons / 0x1_0000 % 16
  }

  function HatValue(buttons: u32): byte {
    DPAD_HAT_LOOKUP[Dpad(buttons)]
  }

  predicate Bit(d: nat, k: nat) {
    if k == 0 then d % 2 == 1 else Bit(d / 2, k - 1)
  }

  /** Where a hat value points on the grid 8 1 2 / 7 0 3 / 6 5 4: x grows right, y grows down. */
  function HatX(hat: byte): int {
    if hat in {2, 3, 4} then 1 else if hat in {6, 7, 8} then -1 else 0
  }

  function HatY(hat: byte): int {
    if hat in {4, 5, 6} then 1 else if hat in {8, 1, 2} then -1 else 0
  }

  function Axis(negative: bool, positive: bool): int {
    (if positive then 1 else 0) - (if negative then 1 else 0)
  }

  /** The table puts the hat where the pressed directions point, and centres it exactly when no
      direction is pressed or two opposite ones are. */
  lemma HatPointsWhereTheDpadDoes(buttons: u32)
    ensures var d := Dpad(buttons);
            var up, down, left, right := Bit(d, 0), Bit(d, 1), Bit(d, 2), Bit(d, 3);
            var opposed := (up && down) || (left && right);
            var hat := HatValue(buttons);
            && 0 <= hat <= 8
            && HatX(hat) == (if opposed then 0 else Axis(left, right))
            && HatY(hat) == (if opposed then 0 else Axis(up, down))
            && (hat == 0 <==> HatX(hat) == 0 && HatY(hat) == 0)
  {
    var d := Dpad(buttons);
    var hat := HatValue(buttons);
    var bits := (Bit(d, 0), Bit(d, 1), Bit(d, 2), Bit(d, 3));
    match d {
      case 0 => assert bits == (false, false, false, false) && hat == 0;
      case 1 => assert bits == (true, false, false, false) && hat == 1;
      case 2 => assert bits == (false, true, false, false) && hat == 5;
      case 3 => assert bits == (true, true, false, false) && hat == 0;
      case 4 => assert bits == (false, false, true, false) && hat == 7;
      case 5 => assert bits == (true, false, true, false) && hat == 8;
      case 6 => assert bits == (false, true, true, false) && hat == 6;
      case 7 => assert bits == (true, true, true, false) && hat == 0;
      case 8 => assert bits == (false, false, false, true) && hat == 3;
      case 9 => assert bits == (true, false, false, true) && hat == 2;
      case 10 => assert bits == (false, true, false, true) && hat == 4;
      case 11 => assert bits == (true, true, false, true) && hat == 0;
      case 12 => assert bits == (false, false, true, true) && hat == 0;
      case 13 => assert bits == (true, false, true, true) && hat == 0;
      case 14 => assert bits == (false, true, true, true) && hat == 0;
      case 15 => assert bits == (true, true, true, true) && hat == 0;
    }
  }

  // The report ---------------------------------------------------------------------------

  /** Stick values move from i16 to u16 by adding 0x8000. */
  function Offset(v: i16): u16 {
    v + 0x8000
  }

  function Unoffset(v: u16): i16 {
    v - 0x8000
  }

  lemma OffsetIsABijection(v: i16, u: u16)
    ensures Unoffset(Offset(v)) == v && Offset(Unoffset(u)) == u
    ensures Offset(v) == u <==> v == Unoffset(u)
  {
  }

  function Min(a: int, b: int): int {
    if a < b then a else b
  }

  function Max(a: int, b: int): int {
    if a < b then b else a
  }

  function ClampTrigger(v: i16): u16 {
    Min(Max(v, 0), 0x7FFF)
  }

  function Pack(f: PadFrame): Payload {
    U16Le(Offset(f.leftX)) + U16Le(Offset(f.leftY)) + U16Le(Offset(f.rightX)) + U16Le(Offset(f.rightY))
    + U16Le(ClampTrigger(f.leftTrigger)) + U16Le(ClampTrigger(f.rightTrigger))
    + U16Le(f.buttons % 0x1_0000) + [HatValue(f.buttons)]
  }

  /** UHID_INPUT: tag, id and size big-endian, then the report. */
  function InputHeader(id: u16): (r: seq<byte>)
    ensures |r| == 5
  {
    [INPUT_TAG] + U16Be(id) + U16Be(15)
  }

  function InputMessage(id: u16, payload: Payload): (r: seq<byte>)
    ensures |r| == GAMEPAD_MESSAGE_BYTES
  {
    InputHeader(id) + payload
  }

  function InputMessages(id: u16, payloads: seq<Payload>): (r: seq<seq<byte>>)
    ensures |r| == |payloads|
    ensures forall i :: 0 <= i < |r| ==> r[i] == InputMessage(id, payloads[i])
  {
    seq(|payloads|, i requires 0 <= i < |payloads| => InputMessage(id, payloads[i]))
  }

  function PackAll(frames: seq<PadFrame>): (r: seq<Payload>)
    ensures |r| == |frames|
    ensures forall i :: 0 <= i < |r| ==> r[i] == Pack(frames[i])
  {
    seq(|frames|, i requires 0 <= i < |frames| => Pack(frames[i]))
  }

  // The receiver's side ------------------------------------------------------------------

  /** What a receiver learns from one report. */
  datatype Report = Report(
    leftX: i16, leftY: i16, rightX: i16, rightY: i16,
    leftTrigger: u16, rightTrigger: u16, buttons: u16, hat: byte)

  function Decode(p: Payload): Report {
    Report(
      Unoffset(ReadU16Le(p[0..2])), Unoffset(ReadU16Le(p[2..4])),
      Unoffset(ReadU16Le(p[4..6])), Unoffset(ReadU16Le(p[6..8])),
      ReadU16Le(p[8..10]), ReadU16Le(p[10..12]), ReadU16Le(p[12..14]), p[14])
  }

  /** What the sender meant: sticks exact, triggers clamped, 16 button bits, one hat position. */
  function Normalize(f: PadFrame): Report {
    Report(
      f.leftX, f.leftY, f.rightX, f.rightY,
      if f.leftTrigger > 0 then f.leftTrigger else 0,
      if f.rightTrigger > 0 then f.rightTrigger else 0,
      f.buttons % 0x1_0000, HatValue(f.buttons))
  }

  lemma DecodePack(f: PadFrame)
    ensures Decode(Pack(f)) == Normalize(f)
  {
    var p := Pack(f);
    assert p[0..2] == U16Le(Offset(f.leftX)) && p[2..4] == U16Le(Offset(f.leftY));
    assert p[4..6] == U16Le(Offset(f.rightX)) && p[6..8] == U16Le(Offset(f.rightY));
    assert p[8..10] == U16Le(ClampTrigger(f.leftTrigger)) && p[10..12] == U16Le(ClampTrigger(f.rightTrigger));
    assert p[12..14] == U16Le(f.buttons % 0x1_0000);
  }

  /** Two frames give the same report exactly when they mean the same thing. */
  lemma SameReportIffSameMeaning(f: PadFrame, g: PadFrame)
    ensures Pack(f) == Pack(g) <==> Normalize(f) == Normalize(g)
  {
    DecodePack(f);
    DecodePack(g);
  }

  function DecodeStream(id: u16, bytes: seq<byte>): Option<seq<Report>> {
    if bytes == [] then Some([])
    else if |bytes| < 20 || bytes[..5] != InputHeader(id) then None
    else match DecodeStream(id, bytes[20..])
         case None => None
         case Some(rest) => Some([Decode(bytes[5..20])] + rest)
  }

  function NormalizeAll(frames: seq<PadFrame>): (r: seq<Report>) {
    if frames == [] then [] else [Normalize(frames[0])] + NormalizeAll(frames[1..])
  }

  /** A frame stream of any length is read back frame by frame. */
  lemma {:induction false} StreamRoundTrip(id: u16, frames: seq<PadFrame>)
    ensures DecodeStream(id, Concat(InputMessages(id, PackAll(frames)))) == Some(NormalizeAll(frames))
  {
    if frames != [] {
      StreamRoundTrip(id, frames[1..]);
      var all := InputMessages(id, PackAll(frames));
      assert all[1..] == InputMessages(id, PackAll(frames[1..]));
      var bytes := Concat(all);
      var first := InputMessage(id, Pack(frames[0]));
      assert bytes == first + Concat(all[1..]);
      assert bytes[..5] == InputHeader(id) && bytes[5..20] == Pack(frames[0]) && bytes[20..] == Concat(all[1..]);
      DecodePack(frames[0]);
    }
  }

  // The gamepad driver's slot ------------------------------------------------------------

  /** One gamepad slot: the last state reported, with 20 button bits and rescaled axes. */
  datatype Slot = Slot(
    buttons: u32, leftX: u16, leftY: u16, rightX: u16, rightY: u16, leftTrigger: u16, rightTrigger: u16)

  /** The slot right after UHID_CREATE: no buttons, centred sticks, released triggers. */
  const FRESH_SLOT := Slot(0, 0x8000, 0x8000, 0x8000, 0x8000, 0, 0)

  function SlotOf(f: PadFrame): Slot {
    Slot(f.buttons % 0x10_0000, Offset(f.leftX), Offset(f.leftY), Offset(f.rightX), Offset(f.rightY),
         ClampTrigger(f.leftTrigger), ClampTrigger(f.rightTrigger))
  }

  function SlotPayload(s: Slot): Payload {
    U16Le(s.leftX) + U16Le(s.leftY) + U16Le(s.rightX) + U16Le(s.rightY)
    + U16Le(s.leftTrigger) + U16Le(s.rightTrigger) + U16Le(s.buttons % 0x1_0000) + [HatValue(s.buttons)]
  }

  /** Adopt a frame; produce a report only if it differs from the slot's state. */
  function FullState(s: Slot, f: PadFrame): (Slot, Option<Payload>) {
    var next := SlotOf(f);
    if s == next then (s, None) else (next, Some(SlotPayload(next)))
  }

  /** The driver's report for a frame is the frame's own packing. */
  lemma SlotPayloadIsPack(f: PadFrame)
    ensures SlotPayload(SlotOf(f)) == Pack(f)
  {
    var b := f.buttons % 0x10_0000;
    assert b % 0x1_0000 == f.buttons % 0x1_0000;
    assert b / 0x1_0000 == f.buttons / 0x1_0000 % 16;
  }

  /** Deduplication never hides a change: a suppressed frame means what the slot already shows,
      and the slot always ends up meaning the frame. */
  lemma SuppressedOnlyIfUnchanged(g: PadFrame, f: PadFrame)
    ensures FullState(SlotOf(g), f).0 == SlotOf(f)
    ensures FullState(SlotOf(g), f).1 == None ==> Normalize(f) == Normalize(g)
    ensures FullState(SlotOf(g), f).1.Some? ==> FullState(SlotOf(g), f).1 == Some(Pack(f))
  {
    SlotPayloadIsPack(f);
    SlotPayloadIsPack(g);
    SameReportIffSameMeaning(f, g);
  }
}
