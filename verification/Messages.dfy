/** Control messages and their wire format (src/control/message.rs), with the reader that cuts
    the byte stream back into messages. Floating-point fields carry their scaled wire value. */
module Messages {
  import opened Bytes
  import opened Frames

  const HID_MAX_SIZE := 15
  const CONTROL_MSG_MAX_SIZE := 0x4_0000

  const CREATE_TAG: byte := 12
  const DESTROY_TAG: byte := 14

  type BareTag = t: byte | t in {5, 6, 7, 11, 15, 17, 19, 20, 24} witness 5

  /** The messages that are not about a UHID device. */
  datatype Plain =
    | InjectKeycode(action: byte, keycode: u32, repeat: u32, metastate: u32)
    | InjectText(typed: seq<byte>)
    | InjectTouch(touch: byte, pointerId: u64, x: i32, y: i32, screenW: u16, screenH: u16, pressure: u16)
    | InjectScroll(sx: i32, sy: i32, scrollW: u16, scrollH: u16, hscroll: u16, vscroll: u16, buttons: u32)
    | BackOrScreenOn(back: byte)
    | GetClipboard(copyKey: byte)
    | SetClipboard(sequence: u64, paste: bool, text: seq<byte>)
    | SetDisplayPower(power: bool)
    | StartApp(name: seq<byte>)
    | CameraSetTorch(torch: bool)
    | ResizeDisplay(width: u16, height: u16)
    | AiConfig(flags: byte, interval: u16, dim: u16)
    | AiQuery(since: u64)
    | Bare(tag: BareTag)

  datatype Msg =
    | UhidCreate(id: u16, vendor: u16, product: u16, name: seq<byte>, desc: seq<byte>)
    | UhidInput(id: u16, size: u16, data: seq<byte>)
    | UhidDestroy(id: u16)
    | Other(plain: Plain)
  {
    predicate Critical() {
      UhidCreate? || UhidDestroy?
    }
  }

  // Serialization ------------------------------------------------------------------------

  const INJECT_TEXT_MAX := 300
  const CLIPBOARD_MAX := CONTROL_MSG_MAX_SIZE - 14

  function BoolByte(b: bool): byte {
    if b then 1 else 0
  }

  function Cut(text: seq<byte>, max: nat): (r: seq<byte>)
    ensures |r| <= max
  {
    if |text| > max then text[..max] else text
  }

  function SerializePlain(p: Plain): Result<seq<byte>> {
    match p
    case InjectKeycode(a, k, r, m) => Ok([0, a] + U32Be(k) + U32Be(r) + U32Be(m))
    case InjectText(text) =>
      var t := Cut(text, INJECT_TEXT_MAX);
      Ok([1] + U32Be(|t|) + t)
    case InjectTouch(a, id, x, y, w, h, pressure) =>
      Ok([2, a] + U64Be(id) + U32Be(I32Bits(x)) + U32Be(I32Bits(y)) + U16Be(w) + U16Be(h)
         + U16Be(pressure) + U32Be(0) + U32Be(0))
    case InjectScroll(x, y, w, h, hs, vs, b) =>
      Ok([3] + U32Be(I32Bits(x)) + U32Be(I32Bits(y)) + U16Be(w) + U16Be(h) + U16Be(hs) + U16Be(vs) + U32Be(b))
    case BackOrScreenOn(a) => Ok([4, a])
    case GetClipboard(k) => Ok([8, k])
    case SetClipboard(sequence, paste, text) =>
      var t := Cut(text, CLIPBOARD_MAX);
      Ok([9] + U64Be(sequence) + [BoolByte(paste)] + U32Be(|t|) + t)
    case SetDisplayPower(on) => Ok([10, BoolByte(on)])
    case StartApp(name) =>
      if |name| > 255 then Err(NameTooLong) else Ok([16, |name|] + name)
    case CameraSetTorch(on) => Ok([18, BoolByte(on)])
    case ResizeDisplay(w, h) => Ok([21] + U16Be(w) + U16Be(h))
    case AiConfig(flags, interval, dim) => Ok([22, flags] + U16Be(interval) + U16Be(dim))
    case AiQuery(since) => Ok([23] + U64Be(since))
    case Bare(tag) => Ok([tag])
  }

  function Serialize(m: Msg): Result<seq<byte>> {
    match m
    case UhidCreate(id, vendor, product, name, desc) =>
      if |name| > 127 then Err(NameTooLong)
      else if |desc| > 0xFFFF then Err(ReportDescTooLong)
      else Ok([CREATE_TAG] + U16Be(id) + U16Be(vendor) + U16Be(product) + [|name|] + name + U16Be(|desc|) + desc)
    case UhidInput(id, size, data) =>
      if size > HID_MAX_SIZE || size > |data| then Err(ControlMessageTooLarge)
      else Ok([INPUT_TAG] + U16Be(id) + U16Be(size) + data[..size])
    case UhidDestroy(id) => Ok([DESTROY_TAG] + U16Be(id))
    case Other(p) => SerializePlain(p)
  }

  /** The bytes a message adds to the stream: none if it cannot be serialized. */
  function Encoding(m: Msg): seq<byte> {
    match Serialize(m)
    case Ok(bytes) => bytes
    case Err(_) => []
  }

  function Encodings(ms: seq<Msg>): (r: seq<seq<byte>>)
    ensures |r| == |ms|
    ensures forall i :: 0 <= i < |r| ==> r[i] == Encoding(ms[i])
  {
    seq(|ms|, i requires 0 <= i < |ms| => Encoding(ms[i]))
  }

  function SerializeAll(ms: seq<Msg>): seq<byte> {
    Concat(Encodings(ms))
  }

  lemma SerializeAllAppend(a: seq<Msg>, b: seq<Msg>)
    ensures SerializeAll(a + b) == SerializeAll(a) + SerializeAll(b)
  {
    hide Encoding, Concat;
    assert Encodings(a + b) == Encodings(a) + Encodings(b);
    ConcatAppend(Encodings(a), Encodings(b));
  }

  lemma SerializeAllOne(m: Msg)
    ensures SerializeAll([m]) == Encoding(m)
  {
    assert Encodings([m]) == [Encoding(m)];
    assert Concat([Encoding(m)]) == Encoding(m) + Concat([]);
  }

  /** A gamepad report as a message and as the fast paths' fixed 20 bytes. */
  lemma InputMessageIsSerialization(id: u16, payload: Payload)
    ensures Serialize(UhidInput(id, 15, payload)) == Ok(InputMessage(id, payload))
  {
    assert payload[..15] == payload;
  }

  // The receiver: framing ----------------------------------------------------------------

  /** Bytes after the tag for the kinds whose length is fixed. */
  function FixedLength(tag: byte): Option<nat> {
    if tag == 0 then Some(13)
    else if tag == 2 then Some(31)
    else if tag == 3 then Some(20)
    else if tag in {4, 8, 10, 18} then Some(1)
    else if tag == 14 then Some(2)
    else if tag == 21 then Some(4)
    else if tag == 22 then Some(5)
    else if tag == 23 then Some(8)
    else if tag in {5, 6, 7, 11, 15, 17, 19, 20, 24} then Some(0)
    else None
  }

  /** The length of the first message, found from its tag and its own length fields. */
  function FrameLength(b: seq<byte>): Option<nat> {
    if b == [] then None
    else if b[0] == 1 then
      if |b| < 5 then None else Some(5 + ReadU32Be(b[1..5]))
    else if b[0] == 9 then
      if |b| < 14 then None else Some(14 + ReadU32Be(b[10..14]))
    else if b[0] == CREATE_TAG then
      if |b| < 8 then None
      else
        var n := 8 + b[7] as int;
        if |b| < n + 2 then None else Some(n + 2 + ReadU16Be(b[n..n + 2]))
    else if b[0] == INPUT_TAG then
      if |b| < 5 then None else Some(5 + ReadU16Be(b[3..5]))
    else if b[0] == 16 then
      if |b| < 2 then None else Some(2 + b[1] as int)
    else
      match FixedLength(b[0])
      case None => None
      case Some(n) => Some(n + 1)
  }

  /** Cut a byte stream into messages; None if it is not a whole number of messages. */
  function Split(b: seq<byte>): Option<seq<seq<byte>>>
    decreases |b|
  {
    if b == [] then Some([])
    else
      match FrameLength(b)
      case None => None
      case Some(n) =>
        if n == 0 || n > |b| then None
        else match Split(b[n..])
             case None => None
             case Some(rest) => Some([b[..n]] + rest)
  }

  lemma FramingOfCreate(m: Msg, rest: seq<byte>)
    requires m.UhidCreate? && Serialize(m).Ok?
    ensures FrameLength(Encoding(m) + rest) == Some(|Encoding(m)|)
  {
    var b := Encoding(m) + rest;
    var n := 8 + |m.name|;
    assert b[n..n + 2] == U16Be(|m.desc|);
  }

  lemma FramingOfClipboard(m: Msg, rest: seq<byte>)
    requires m.Other? && m.plain.SetClipboard?
    ensures FrameLength(Encoding(m) + rest) == Some(|Encoding(m)|)
  {
    var t := Cut(m.plain.text, CLIPBOARD_MAX);
    var b := Encoding(m) + rest;
    assert b[10..14] == U32Be(|t|);
    U32RoundTrip(|t|);
  }

  lemma FramingOfText(m: Msg, rest: seq<byte>)
    requires m.Other? && m.plain.InjectText?
    ensures FrameLength(Encoding(m) + rest) == Some(|Encoding(m)|)
  {
    var t := Cut(m.plain.typed, INJECT_TEXT_MAX);
    var b := Encoding(m) + rest;
    assert b[1..5] == U32Be(|t|);
    U32RoundTrip(|t|);
  }

  lemma FramingOfPlain(m: Msg, rest: seq<byte>)
    requires m.Other? && Serialize(m).Ok?
    ensures FrameLength(Encoding(m) + rest) == Some(|Encoding(m)|)
    ensures |Encoding(m)| > 0
  {
    hide U32Be, U64Be, U16Be;
    if m.plain.SetClipboard? {
      FramingOfClipboard(m, rest);
    } else if m.plain.InjectText? {
      FramingOfText(m, rest);
    }
  }

  /** A message is refused exactly for a name, descriptor or input that does not fit, with the error that
      says which. */
  lemma SerializesIff(m: Msg)
    ensures Serialize(m).Ok? <==>
            match m
            case UhidCreate(_, _, _, name, desc) => |name| <= 127 && |desc| <= 65535
            case UhidInput(_, size, data) => size <= 15 && size <= |data|
            case Other(StartApp(name)) => |name| <= 255
            case _ => true
    ensures Serialize(m).Err? ==>
              Serialize(m).error ==
              if m.UhidInput? then ControlMessageTooLarge
              else if m.UhidCreate? && |m.name| <= 127 then ReportDescTooLong
              else NameTooLong
  {
  }

  /** Every serialized message announces its own length, whatever follows it. */
  lemma Framing(m: Msg, rest: seq<byte>)
    requires Serialize(m).Ok?
    ensures FrameLength(Encoding(m) + rest) == Some(|Encoding(m)|)
    ensures |Encoding(m)| > 0
  {
    var b := Encoding(m) + rest;
    if m.UhidCreate? {
      FramingOfCreate(m, rest);
    } else if m.UhidInput? {
      assert b[3..5] == U16Be(m.size);
    } else if m.Other? {
      FramingOfPlain(m, rest);
    }
  }

  ghost predicate Serializable(ms: seq<Msg>) {
    forall i :: 0 <= i < |ms| ==> Serialize(ms[i]).Ok?
  }

  /** The stream is unambiguous: cutting it recovers exactly the messages that were sent. */
  lemma {:induction false} SplitRecoversMessages(ms: seq<Msg>)
    requires Serializable(ms)
    ensures Split(SerializeAll(ms)) == Some(Encodings(ms))
  {
    if ms != [] {
      var rest := ms[1..];
      SplitRecoversMessages(rest);
      assert Encodings(ms)[1..] == Encodings(rest);
      assert SerializeAll(ms) == Encoding(ms[0]) + SerializeAll(rest);
      Framing(ms[0], SerializeAll(rest));
      var b, n := SerializeAll(ms), |Encoding(ms[0])|;
      assert b[..n] == Encoding(ms[0]) && b[n..] == SerializeAll(rest);
      assert Encodings(ms) == [Encoding(ms[0])] + Encodings(rest);
    }
  }

  // The receiver: fields -----------------------------------------------------------------

  function Truth(b: byte): bool {
    b != 0
  }

  function ParsePlain(b: seq<byte>): Option<Plain>
    requires b != []
  {
    match b[0]
    case 0 => if |b| != 14 then None else
      Some(InjectKeycode(b[1], ReadU32Be(b[2..6]), ReadU32Be(b[6..10]), ReadU32Be(b[10..14])))
    case 1 => if |b| < 5 then None else Some(InjectText(b[5..]))
    case 2 => if |b| != 32 then None else
      Some(InjectTouch(b[1], ReadU64Be(b[2..10]), I32FromBits(ReadU32Be(b[10..14])), I32FromBits(ReadU32Be(b[14..18])),
                       ReadU16Be(b[18..20]), ReadU16Be(b[20..22]), ReadU16Be(b[22..24])))
    case 3 => if |b| != 21 then None else
      Some(InjectScroll(I32FromBits(ReadU32Be(b[1..5])), I32FromBits(ReadU32Be(b[5..9])),
                        ReadU16Be(b[9..11]), ReadU16Be(b[11..13]), ReadU16Be(b[13..15]), ReadU16Be(b[15..17]),
                        ReadU32Be(b[17..21])))
    case 4 => if |b| != 2 then None else Some(BackOrScreenOn(b[1]))
    case 8 => if |b| != 2 then None else Some(GetClipboard(b[1]))
    case 9 => if |b| < 14 then None else Some(SetClipboard(ReadU64Be(b[1..9]), Truth(b[9]), b[14..]))
    case 10 => if |b| != 2 then None else Some(SetDisplayPower(Truth(b[1])))
    case 16 => if |b| < 2 then None else Some(StartApp(b[2..]))
    case 18 => if |b| != 2 then None else Some(CameraSetTorch(Truth(b[1])))
    case 21 => if |b| != 5 then None else Some(ResizeDisplay(ReadU16Be(b[1..3]), ReadU16Be(b[3..5])))
    case 22 => if |b| != 6 then None else Some(AiConfig(b[1], ReadU16Be(b[2..4]), ReadU16Be(b[4..6])))
    case 23 => if |b| != 9 then None else Some(AiQuery(ReadU64Be(b[1..9])))
    case t => if |b| != 1 || t !in {5, 6, 7, 11, 15, 17, 19, 20, 24} then None else Some(Bare(t))
  }

  function Parse(b: seq<byte>): Option<Msg>
    requires b != []
  {
    if b[0] == CREATE_TAG then
      if |b| < 8 || |b| < 10 + b[7] as int then None
      else
        var n := 8 + b[7] as int;
        Some(UhidCreate(ReadU16Be(b[1..3]), ReadU16Be(b[3..5]), ReadU16Be(b[5..7]), b[8..n], b[n + 2..]))
    else if b[0] == INPUT_TAG then
      if |b| < 5 then None else Some(UhidInput(ReadU16Be(b[1..3]), ReadU16Be(b[3..5]), b[5..]))
    else if b[0] == DESTROY_TAG then
      if |b| != 3 then None else Some(UhidDestroy(ReadU16Be(b[1..3])))
    else
      match ParsePlain(b)
      case None => None
      case Some(p) => Some(Other(p))
  }

  /** What survives serialization: report padding and over-long text do not. */
  function Sent(m: Msg): Msg
    requires Serialize(m).Ok?
  {
    match m
    case UhidInput(id, size, data) => UhidInput(id, size, data[..size])
    case Other(SetClipboard(sequence, paste, text)) => Other(SetClipboard(sequence, paste, Cut(text, CLIPBOARD_MAX)))
    case Other(InjectText(text)) => Other(InjectText(Cut(text, INJECT_TEXT_MAX)))
    case _ => m
  }

  lemma I32RoundTrip(v: i32)
    ensures I32FromBits(ReadU32Be(U32Be(I32Bits(v)))) == v
  {
    U32RoundTrip(I32Bits(v));
  }

  lemma ParseTouch(p: Plain)
    requires p.InjectTouch?
    ensures Parse(Encoding(Other(p))) == Some(Other(p))
  {
    var b := Encoding(Other(p));
    assert b[2..10] == U64Be(p.pointerId) && b[10..14] == U32Be(I32Bits(p.x)) && b[14..18] == U32Be(I32Bits(p.y));
    assert b[18..20] == U16Be(p.screenW) && b[20..22] == U16Be(p.screenH) && b[22..24] == U16Be(p.pressure);
    U64RoundTrip(p.pointerId);
    I32RoundTrip(p.x);
    I32RoundTrip(p.y);
  }

  lemma ParseScroll(p: Plain)
    requires p.InjectScroll?
    ensures Parse(Encoding(Other(p))) == Some(Other(p))
  {
    var b := Encoding(Other(p));
    assert b[1..5] == U32Be(I32Bits(p.sx)) && b[5..9] == U32Be(I32Bits(p.sy));
    assert b[9..11] == U16Be(p.scrollW) && b[11..13] == U16Be(p.scrollH);
    assert b[13..15] == U16Be(p.hscroll) && b[15..17] == U16Be(p.vscroll) && b[17..21] == U32Be(p.buttons);
    I32RoundTrip(p.sx);
    I32RoundTrip(p.sy);
    U32RoundTrip(p.buttons);
  }

  lemma ParseKeycode(p: Plain)
    requires p.InjectKeycode?
    ensures Parse(Encoding(Other(p))) == Some(Other(p))
  {
    var b := Encoding(Other(p));
    assert b[2..6] == U32Be(p.keycode) && b[6..10] == U32Be(p.repeat) && b[10..14] == U32Be(p.metastate);
    U32RoundTrip(p.keycode);
    U32RoundTrip(p.repeat);
    U32RoundTrip(p.metastate);
  }

  lemma ParseText(p: Plain)
    requires p.SetClipboard? || p.StartApp? || p.InjectText?
    requires Serialize(Other(p)).Ok?
    ensures Parse(Encoding(Other(p))) == Some(Sent(Other(p)))
  {
    var b := Encoding(Other(p));
    if p.StartApp? {
      assert b[2..] == p.name;
    } else if p.InjectText? {
      var t := Cut(p.typed, INJECT_TEXT_MAX);
      assert b == [1] + U32Be(|t|) + t && b[5..] == t;
    } else {
      var t := Cut(p.text, CLIPBOARD_MAX);
      assert b == [9] + U64Be(p.sequence) + [BoolByte(p.paste)] + U32Be(|t|) + t;
      assert b[1..9] == U64Be(p.sequence) && b[14..] == t;
      U64RoundTrip(p.sequence);
    }
  }

  lemma ParseSmall(p: Plain)
    requires !p.InjectTouch? && !p.InjectScroll? && !p.InjectKeycode?
    requires !p.SetClipboard? && !p.StartApp? && !p.InjectText?
    ensures Parse(Encoding(Other(p))) == Some(Other(p))
  {
    hide U32Be, ReadU32Be;
    var b := Encoding(Other(p));
    match p
    case ResizeDisplay(w, h) => assert b[1..3] == U16Be(w) && b[3..5] == U16Be(h);
    case AiConfig(_, interval, dim) => assert b[2..4] == U16Be(interval) && b[4..6] == U16Be(dim);
    case AiQuery(since) =>
      assert b[1..9] == U64Be(since);
      U64RoundTrip(since);
    case _ =>
  }

  lemma ParseCreate(m: Msg)
    requires m.UhidCreate? && Serialize(m).Ok?
    ensures Parse(Encoding(m)) == Some(m)
  {
    var b := Encoding(m);
    var n := 8 + |m.name|;
    assert b == [CREATE_TAG] + U16Be(m.id) + U16Be(m.vendor) + U16Be(m.product) + [|m.name|] + m.name
                + U16Be(|m.desc|) + m.desc;
    assert b[1..3] == U16Be(m.id);
    assert b[3..5] == U16Be(m.vendor);
    assert b[5..7] == U16Be(m.product);
    assert b[8..n] == m.name;
    assert b[n + 2..] == m.desc;
  }

  /** Every field of every message comes back from its bytes. */
  lemma ParseSerialized(m: Msg)
    requires Serialize(m).Ok?
    ensures Encoding(m) != [] && Parse(Encoding(m)) == Some(Sent(m))
  {
    var b := Encoding(m);
    match m
    case UhidCreate(id, vendor, product, name, desc) =>
      ParseCreate(m);
    case UhidInput(id, size, data) =>
      assert b[1..3] == U16Be(id) && b[3..5] == U16Be(size) && b[5..] == data[..size];
    case UhidDestroy(id) => assert b[1..3] == U16Be(id);
    case Other(p) =>
      if p.InjectTouch? { ParseTouch(p); }
      else if p.InjectScroll? { ParseScroll(p); }
      else if p.InjectKeycode? { ParseKeycode(p); }
      else if p.SetClipboard? || p.StartApp? || p.InjectText? { ParseText(p); }
      else { ParseSmall(p); }
  }
}
