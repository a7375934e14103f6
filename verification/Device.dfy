/** The device-to-host stream (src/device.rs): native messages and extension envelopes, each of
    which announces its own length. The frame-summary and statistics payloads are parsed by two
    partial functions that the model leaves open. */
module Device {
  import opened Bytes
  import Utf8

  const DEVICE_MSG_MAX_SIZE := 0x4_0000
  const MAX_PAYLOAD := DEVICE_MSG_MAX_SIZE - 5

  const TYPE_CLIPBOARD: byte := 0
  const TYPE_ACK_CLIPBOARD: byte := 1
  const TYPE_UHID_OUTPUT: byte := 2
  const TYPE_FRAME_SUMMARY: byte := 3
  const TYPE_AI_STATS: byte := 4

  datatype ReadError =
    | UnexpectedEof
    | ClipboardTooLarge
    | NotUtf8
    | OutputTooLarge
    | EnvelopeTooLarge
    | BadSummary
    | BadStats
    | UnknownType(tag: byte)
    | TimedOut

  datatype Read<+T> = Got(value: T) | Failed(error: ReadError)

  datatype DeviceMessage =
    | Clipboard(text: seq<Utf8.Scalar>)
    | AckClipboard(sequence: u64)
    | UhidOutput(id: u16, data: seq<byte>)

  datatype DeviceEvent<F, S> =
    | Native(message: DeviceMessage)
    | FrameSummary(summary: F)
    | AiStats(stats: S)
    | UnknownEnvelope(msgType: byte, payload: seq<byte>)

  /** The payload parsers. */
  datatype Parsers<!F, !S> = Parsers(frame: seq<byte> -> Option<F>, stats: seq<byte> -> Option<S>)

  // Reading ------------------------------------------------------------------------------

  /** read_exact on the bytes at hand: all of them or none. */
  function Take(b: seq<byte>, n: nat): Read<(seq<byte>, seq<byte>)> {
    if n <= |b| then Got((b[..n], b[n..])) else Failed(UnexpectedEof)
  }

  function ReadClipboard(b: seq<byte>): Read<(DeviceMessage, seq<byte>)> {
    match Take(b, 4)
    case Failed(x) => Failed(x)
    case Got((head, b1)) =>
      var len := ReadU32Be(head);
      if len > MAX_PAYLOAD then Failed(ClipboardTooLarge)
      else
        match Take(b1, len)
        case Failed(x) => Failed(x)
        case Got((payload, rest)) =>
          match Utf8.Decode(payload)
          case None => Failed(NotUtf8)
          case Some(text) => Got((Clipboard(text), rest))
  }

  function ReadAckClipboard(b: seq<byte>): Read<(DeviceMessage, seq<byte>)> {
    match Take(b, 8)
    case Failed(x) => Failed(x)
    case Got((head, rest)) => Got((AckClipboard(ReadU64Be(head)), rest))
  }

  function ReadUhidOutput(b: seq<byte>): Read<(DeviceMessage, seq<byte>)> {
    match Take(b, 2)
    case Failed(x) => Failed(x)
    case Got((id, b1)) =>
      match Take(b1, 2)
      case Failed(x) => Failed(x)
      case Got((head, b2)) =>
        var size := ReadU16Be(head);
        if size > MAX_PAYLOAD then Failed(OutputTooLarge)
        else
          match Take(b2, size)
          case Failed(x) => Failed(x)
          case Got((data, rest)) => Got((UhidOutput(ReadU16Be(id), data), rest))
  }

  function Interpret<F, S>(p: Parsers<F, S>, tag: byte, payload: seq<byte>): Read<DeviceEvent<F, S>> {
    if tag == TYPE_FRAME_SUMMARY then
      match p.frame(payload)
      case None => Failed(BadSummary)
      case Some(f) => Got(FrameSummary(f))
    else if tag == TYPE_AI_STATS then
      match p.stats(payload)
      case None => Failed(BadStats)
      case Some(s) => Got(AiStats(s))
    else Got(UnknownEnvelope(tag, payload))
  }

  function ReadEnvelope<F, S>(p: Parsers<F, S>, tag: byte, b: seq<byte>): Read<(DeviceEvent<F, S>, seq<byte>)> {
    match Take(b, 4)
    case Failed(x) => Failed(x)
    case Got((head, b1)) =>
      var len := ReadU32Be(head);
      if len > MAX_PAYLOAD then Failed(EnvelopeTooLarge)
      else
        match Take(b1, len)
        case Failed(x) => Failed(x)
        case Got((payload, rest)) =>
          match Interpret(p, tag, payload)
          case Failed(x) => Failed(x)
          case Got(ev) => Got((ev, rest))
  }

  function ReadNative(tag: byte, b: seq<byte>): Read<(DeviceMessage, seq<byte>)>
    requires tag <= 2
  {
    if tag == TYPE_CLIPBOARD then ReadClipboard(b)
    else if tag == TYPE_ACK_CLIPBOARD then ReadAckClipboard(b)
    else ReadUhidOutput(b)
  }

  function ReadDeviceMessage(b: seq<byte>): Read<(DeviceMessage, seq<byte>)> {
    if b == [] then Failed(UnexpectedEof)
    else if b[0] <= 2 then ReadNative(b[0], b[1..])
    else Failed(UnknownType(b[0]))
  }

  function ReadDeviceEvent<F, S>(p: Parsers<F, S>, b: seq<byte>): Read<(DeviceEvent<F, S>, seq<byte>)> {
    if b == [] then Failed(UnexpectedEof)
    else if b[0] <= 2 then
      match ReadNative(b[0], b[1..])
      case Failed(x) => Failed(x)
      case Got((m, rest)) => Got((Native(m), rest))
    else ReadEnvelope(p, b[0], b[1..])
  }

  /** The next `n` events. */
  function ReadEvents<F, S>(p: Parsers<F, S>, b: seq<byte>, n: nat): Read<(seq<DeviceEvent<F, S>>, seq<byte>)> {
    if n == 0 then Got(([], b))
    else
      match ReadDeviceEvent(p, b)
      case Failed(x) => Failed(x)
      case Got((ev, b1)) =>
        match ReadEvents(p, b1, n - 1)
        case Failed(x) => Failed(x)
        case Got((evs, rest)) => Got(([ev] + evs, rest))
  }

  // The grammar --------------------------------------------------------------------------

  /** What the server puts on the stream: native messages, and tagged envelopes. */
  datatype WireEvent = Message(message: DeviceMessage) | Envelope(tag: byte, payload: seq<byte>)

  function Encode(w: WireEvent): seq<byte>
    requires Encodable(w)
  {
    match w
    case Message(Clipboard(text)) =>
      var t := Utf8.Encode(text);
      [TYPE_CLIPBOARD] + U32Be(|t|) + t
    case Message(AckClipboard(sequence)) => [TYPE_ACK_CLIPBOARD] + U64Be(sequence)
    case Message(UhidOutput(id, data)) => [TYPE_UHID_OUTPUT] + U16Be(id) + U16Be(|data|) + data
    case Envelope(tag, payload) => [tag] + U32Be(|payload|) + payload
  }

  /** Payloads fit their length fields and the size limit; envelope tags are not native ones. */
  predicate Encodable(w: WireEvent) {
    match w
    case Message(Clipboard(text)) => |Utf8.Encode(text)| <= MAX_PAYLOAD
    case Message(AckClipboard(_)) => true
    case Message(UhidOutput(_, data)) => |data| <= 0xFFFF
    case Envelope(tag, payload) => tag >= 3 && |payload| <= MAX_PAYLOAD
  }

  predicate WellFormed<F, S>(p: Parsers<F, S>, w: WireEvent) {
    && Encodable(w)
    && (w.Envelope? && w.tag == TYPE_FRAME_SUMMARY ==> p.frame(w.payload).Some?)
    && (w.Envelope? && w.tag == TYPE_AI_STATS ==> p.stats(w.payload).Some?)
  }

  function Meaning<F, S>(p: Parsers<F, S>, w: WireEvent): DeviceEvent<F, S>
    requires WellFormed(p, w)
  {
    match w
    case Message(m) => Native(m)
    case Envelope(tag, payload) =>
      if tag == TYPE_FRAME_SUMMARY then FrameSummary(p.frame(payload).value)
      else if tag == TYPE_AI_STATS then AiStats(p.stats(payload).value)
      else UnknownEnvelope(tag, payload)
  }

  ghost predicate AllWellFormed<F, S>(p: Parsers<F, S>, ws: seq<WireEvent>) {
    forall i :: 0 <= i < |ws| ==> WellFormed(p, ws[i])
  }

  ghost function EncodeAll<F, S>(p: Parsers<F, S>, ws: seq<WireEvent>): seq<byte>
    requires AllWellFormed(p, ws)
  {
    if ws == [] then [] else Encode(ws[0]) + EncodeAll(p, ws[1..])
  }

  ghost function Meanings<F, S>(p: Parsers<F, S>, ws: seq<WireEvent>): seq<DeviceEvent<F, S>>
    requires AllWellFormed(p, ws)
  {
    if ws == [] then [] else [Meaning(p, ws[0])] + Meanings(p, ws[1..])
  }

  // Round trips --------------------------------------------------------------------------

  lemma TakeExactly(a: seq<byte>, b: seq<byte>)
    ensures Take(a + b, |a|) == Got((a, b))
  {
    assert (a + b)[..|a|] == a && (a + b)[|a|..] == b;
  }

  lemma NativeRoundTrip(m: DeviceMessage, rest: seq<byte>)
    requires Encodable(Message(m))
    ensures var b := Encode(Message(m)) + rest;
            b != [] && b[0] <= 2 && ReadNative(b[0], b[1..]) == Got((m, rest))
  {
    hide Take;
    var b := Encode(Message(m)) + rest;
    match m
    case Clipboard(text) =>
      var t := Utf8.Encode(text);
      assert b[1..] == U32Be(|t|) + (t + rest);
      TakeExactly(U32Be(|t|), t + rest);
      TakeExactly(t, rest);
      U32RoundTrip(|t|);
      Utf8.DecodeEncode(text);
    case AckClipboard(sequence) =>
      assert b[1..] == U64Be(sequence) + rest;
      TakeExactly(U64Be(sequence), rest);
      U64RoundTrip(sequence);
    case UhidOutput(id, data) =>
      assert b[1..] == U16Be(id) + (U16Be(|data|) + (data + rest));
      TakeExactly(U16Be(id), U16Be(|data|) + (data + rest));
      TakeExactly(U16Be(|data|), data + rest);
      TakeExactly(data, rest);
  }

  lemma EnvelopeRoundTrip<F, S>(p: Parsers<F, S>, w: WireEvent, rest: seq<byte>)
    requires WellFormed(p, w) && w.Envelope?
    ensures ReadEnvelope(p, w.tag, U32Be(|w.payload|) + w.payload + rest) == Got((Meaning(p, w), rest))
  {
    WholePayload(w.payload, rest);
    hide Take, U32Be, ReadU32Be;
  }

  lemma EnvelopeBytes(w: WireEvent, rest: seq<byte>)
    requires w.Envelope? && Encodable(w)
    ensures var b := Encode(w) + rest;
            b != [] && b[0] == w.tag > 2 && b[1..] == U32Be(|w.payload|) + w.payload + rest
  {
    hide U32Be;
    var later := U32Be(|w.payload|) + w.payload + rest;
    assert Encode(w) + rest == [w.tag] + later;
  }

  lemma EventRoundTrip<F, S>(p: Parsers<F, S>, w: WireEvent, rest: seq<byte>)
    requires WellFormed(p, w)
    ensures ReadDeviceEvent(p, Encode(w) + rest) == Got((Meaning(p, w), rest))
  {
    hide ReadNative, ReadEnvelope, Encode, U32Be, Encodable;
    if w.Message? {
      NativeRoundTrip(w.message, rest);
    } else {
      EnvelopeRoundTrip(p, w, rest);
      EnvelopeBytes(w, rest);
    }
  }

  /** Any list of well-formed events, whatever bytes follow: reading that many events returns
      exactly the list and leaves exactly those bytes. Unknown tags never lose the alignment. */
  lemma {:induction false} StreamRoundTrip<F, S>(p: Parsers<F, S>, ws: seq<WireEvent>, rest: seq<byte>)
    requires AllWellFormed(p, ws)
    ensures ReadEvents(p, EncodeAll(p, ws) + rest, |ws|) == Got((Meanings(p, ws), rest))
    decreases |ws|
  {
    hide ReadDeviceEvent, Encode;
    if ws == [] {
      assert [] + rest == rest;
    } else {
      EventRoundTrip(p, ws[0], EncodeAll(p, ws[1..]) + rest);
      assert EncodeAll(p, ws) + rest == Encode(ws[0]) + (EncodeAll(p, ws[1..]) + rest);
      StreamRoundTrip(p, ws[1..], rest);
    }
  }

  // The parser accepts nothing else ------------------------------------------------------

  lemma TakeSplits(b: seq<byte>, n: nat)
    requires Take(b, n).Got?
    ensures |Take(b, n).value.0| == n && b == Take(b, n).value.0 + Take(b, n).value.1
  {
  }

  lemma ClipboardIsEncoded(b: seq<byte>)
    requires ReadClipboard(b).Got?
    ensures var (m, rest) := ReadClipboard(b).value;
            Encodable(Message(m)) && [TYPE_CLIPBOARD] + b == Encode(Message(m)) + rest
  {
    hide Take, U32Be, ReadU32Be;
    var rest := ReadClipboard(b).value.1;
    TakeSplits(b, 4);
    var (head, b1) := Take(b, 4).value;
    TakeSplits(b1, ReadU32Be(head));
    var payload := Take(b1, ReadU32Be(head)).value.0;
    Utf8.EncodeDecode(payload);
    U32FromBytes(head);
    assert [TYPE_CLIPBOARD] + (head + (payload + rest)) == [TYPE_CLIPBOARD] + head + payload + rest;
  }

  lemma AckIsEncoded(b: seq<byte>)
    requires ReadAckClipboard(b).Got?
    ensures var (m, rest) := ReadAckClipboard(b).value;
            Encodable(Message(m)) && [TYPE_ACK_CLIPBOARD] + b == Encode(Message(m)) + rest
  {
    hide Take, U64Be, ReadU64Be;
    TakeSplits(b, 8);
    var (head, rest) := Take(b, 8).value;
    U64FromBytes(head);
    assert [TYPE_ACK_CLIPBOARD] + (head + rest) == [TYPE_ACK_CLIPBOARD] + head + rest;
  }

  lemma OutputIsEncoded(b: seq<byte>)
    requires ReadUhidOutput(b).Got?
    ensures var (m, rest) := ReadUhidOutput(b).value;
            Encodable(Message(m)) && [TYPE_UHID_OUTPUT] + b == Encode(Message(m)) + rest
  {
    hide Take, U16Be, ReadU16Be;
    var rest := ReadUhidOutput(b).value.1;
    TakeSplits(b, 2);
    var (id, b1) := Take(b, 2).value;
    TakeSplits(b1, 2);
    var (head, b2) := Take(b1, 2).value;
    TakeSplits(b2, ReadU16Be(head));
    var data := Take(b2, ReadU16Be(head)).value.0;
    U16FromBytes(id);
    U16FromBytes(head);
    assert [TYPE_UHID_OUTPUT] + (id + (head + (data + rest))) == [TYPE_UHID_OUTPUT] + id + head + data + rest;
  }

  lemma NativeIsEncoded(tag: byte, b: seq<byte>)
    requires tag <= 2 && ReadNative(tag, b).Got?
    ensures var (m, rest) := ReadNative(tag, b).value;
            Encodable(Message(m)) && [tag] + b == Encode(Message(m)) + rest
  {
    hide Encode, ReadClipboard, ReadAckClipboard, ReadUhidOutput;
    if tag == TYPE_CLIPBOARD {
      ClipboardIsEncoded(b);
    } else if tag == TYPE_ACK_CLIPBOARD {
      AckIsEncoded(b);
    } else {
      OutputIsEncoded(b);
    }
  }

  lemma U16FromBytes(b: seq<byte>)
    requires |b| == 2
    ensures U16Be(ReadU16Be(b)) == b
  {
  }

  /** The parser accepts exactly the grammar: what it reads is the encoding of a well-formed event
      with the meaning it returned, followed by what it left. */
  lemma OnlyEncodingsAreAccepted<F, S>(p: Parsers<F, S>, b: seq<byte>) returns (w: WireEvent)
    requires ReadDeviceEvent(p, b).Got?
    ensures WellFormed(p, w)
    ensures var (ev, rest) := ReadDeviceEvent(p, b).value;
            b == Encode(w) + rest && ev == Meaning(p, w)
  {
    var rest := ReadDeviceEvent(p, b).value.1;
    assert b == [b[0]] + b[1..];
    if b[0] <= 2 {
      NativeIsEncoded(b[0], b[1..]);
      w := Message(ReadNative(b[0], b[1..]).value.0);
    } else {
      hide Take;
      TakeSplits(b[1..], 4);
      var (head, b1) := Take(b[1..], 4).value;
      TakeSplits(b1, ReadU32Be(head));
      var payload := Take(b1, ReadU32Be(head)).value.0;
      U32FromBytes(head);
      w := Envelope(b[0], payload);
      assert [b[0]] + (head + (payload + rest)) == [b[0]] + head + payload + rest;
    }
  }

  /** The native reader and the event reader agree on tags 0 to 2 and part ways above: there the
      native reader gives up, the event reader takes the whole envelope. */
  lemma ReadersAgreeOnNativeTags<F, S>(p: Parsers<F, S>, b: seq<byte>)
    ensures b == [] || b[0] <= 2 ==>
              match ReadDeviceMessage(b)
              case Failed(x) => ReadDeviceEvent(p, b) == Failed(x)
              case Got((m, rest)) => ReadDeviceEvent(p, b) == Got((Native(m), rest))
    ensures b != [] && b[0] > 2 ==>
              && ReadDeviceMessage(b) == Failed(UnknownType(b[0]))
              && (ReadDeviceEvent(p, b).Got? ==> !ReadDeviceEvent(p, b).value.0.Native?)
  {
  }

  /** An oversized length is refused before any payload is looked at: what follows the length
      field does not matter. */
  lemma OversizedIsRefused<F, S>(p: Parsers<F, S>, tag: byte, len: u32, rest: seq<byte>)
    requires tag != TYPE_ACK_CLIPBOARD && tag != TYPE_UHID_OUTPUT && len > MAX_PAYLOAD
    ensures ReadDeviceEvent(p, [tag] + U32Be(len) + rest)
         == Failed(if tag == TYPE_CLIPBOARD then ClipboardTooLarge else EnvelopeTooLarge)
  {
    hide Take;
    var b := [tag] + U32Be(len) + rest;
    assert b[1..] == U32Be(len) + rest;
    TakeExactly(U32Be(len), rest);
    U32RoundTrip(len);
  }

  // Streams that end or lie --------------------------------------------------------------------

  lemma TakeShort(b: seq<byte>, n: nat)
    ensures |b| < n ==> Take(b, n) == Failed(UnexpectedEof)
  {
  }

  lemma SplitPrefix(a: seq<byte>, b: seq<byte>, n: nat)
    requires |a| <= n <= |a + b|
    ensures (a + b)[..n] == a + b[..n - |a|]
  {
  }

  /** A length-prefixed payload that the stream does not hold in full: either the head or the payload is
      cut short. */
  lemma CutPayload(len: seq<byte>, payload: seq<byte>, k: nat)
    requires |len| == 4 && ReadU32Be(len) == |payload| && k < 4 + |payload|
    ensures var b := (len + payload)[..k];
            && Take(b, 4) == (if k < 4 then Failed(UnexpectedEof) else Got((len, payload[..k - 4])))
            && (k >= 4 ==> Take(payload[..k - 4], |payload|) == Failed(UnexpectedEof))
  {
    if k >= 4 {
      SplitPrefix(len, payload, k);
      TakeExactly(len, payload[..k - 4]);
      TakeShort(payload[..k - 4], |payload|);
    }
  }

  lemma CutClipboard(t: seq<byte>, k: nat)
    requires |t| <= MAX_PAYLOAD && k < 4 + |t|
    ensures ReadClipboard((U32Be(|t|) + t)[..k]) == Failed(UnexpectedEof)
  {
    U32RoundTrip(|t|);
    CutPayload(U32Be(|t|), t, k);
    hide Take, U32Be, ReadU32Be, Utf8.Decode;
  }

  lemma CutEnvelope<F, S>(p: Parsers<F, S>, tag: byte, payload: seq<byte>, k: nat)
    requires |payload| <= MAX_PAYLOAD && k < 4 + |payload|
    ensures ReadEnvelope(p, tag, (U32Be(|payload|) + payload)[..k]) == Failed(UnexpectedEof)
  {
    U32RoundTrip(|payload|);
    CutPayload(U32Be(|payload|), payload, k);
    hide Take, U32Be, ReadU32Be, Interpret;
  }

  lemma CutAck(sequence: u64, k: nat)
    requires k < 8
    ensures ReadAckClipboard(U64Be(sequence)[..k]) == Failed(UnexpectedEof)
  {
    hide U64Be;
  }

  /** Reading a stream that breaks off behind its tag. */
  lemma ReadCut<F, S>(p: Parsers<F, S>, tag: byte, rest: seq<byte>, k: nat)
    requires 0 < k <= 1 + |rest|
    requires if tag <= 2 then ReadNative(tag, rest[..k - 1]) == Failed(UnexpectedEof)
             else ReadEnvelope(p, tag, rest[..k - 1]) == Failed(UnexpectedEof)
    ensures ReadDeviceEvent(p, ([tag] + rest)[..k]) == Failed(UnexpectedEof)
  {
    hide ReadNative, ReadEnvelope;
    var b := ([tag] + rest)[..k];
    assert b[0] == tag && b[1..] == rest[..k - 1];
  }

  /** A well-formed event that breaks off anywhere is an end of stream, never another event. */
  lemma TruncatedIsEof<F, S>(p: Parsers<F, S>, w: WireEvent, k: nat)
    requires WellFormed(p, w) && k < |Encode(w)|
    ensures ReadDeviceEvent(p, Encode(w)[..k]) == Failed(UnexpectedEof)
  {
    hide ReadClipboard, ReadAckClipboard, ReadUhidOutput, ReadEnvelope, Utf8.Encode, U32Be, U64Be, U16Be;
    if k == 0 {
      EmptyIsEof(p);
      assert Encode(w)[..0] == [];
    } else {
      hide ReadDeviceEvent;
      match w {
        case Message(Clipboard(text)) => TruncatedClipboard(p, Utf8.Encode(text), k);
        case Message(AckClipboard(sequence)) =>
          CutAck(sequence, k - 1);
          ReadCut(p, TYPE_ACK_CLIPBOARD, U64Be(sequence), k);
        case Message(UhidOutput(id, data)) => TruncatedOutput(p, id, data, k);
        case Envelope(tag, payload) =>
          assert Encode(w) == [tag] + (U32Be(|payload|) + payload);
          CutEnvelope(p, tag, payload, k - 1);
          ReadCut(p, tag, U32Be(|payload|) + payload, k);
      }
    }
  }

  lemma EmptyIsEof<F, S>(p: Parsers<F, S>)
    ensures ReadDeviceEvent(p, []) == Failed(UnexpectedEof)
  {
  }

  lemma TruncatedClipboard<F, S>(p: Parsers<F, S>, t: seq<byte>, k: nat)
    requires |t| <= MAX_PAYLOAD && 0 < k < 5 + |t|
    ensures ReadDeviceEvent(p, ([TYPE_CLIPBOARD] + U32Be(|t|) + t)[..k]) == Failed(UnexpectedEof)
  {
    hide ReadClipboard, ReadDeviceEvent, U32Be;
    assert [TYPE_CLIPBOARD] + U32Be(|t|) + t == [TYPE_CLIPBOARD] + (U32Be(|t|) + t);
    CutClipboard(t, k - 1);
    ReadCut(p, TYPE_CLIPBOARD, U32Be(|t|) + t, k);
  }

  lemma TruncatedOutput<F, S>(p: Parsers<F, S>, id: u16, data: seq<byte>, k: nat)
    requires |data| <= 0xFFFF && 0 < k < 5 + |data|
    ensures ReadDeviceEvent(p, ([TYPE_UHID_OUTPUT] + U16Be(id) + U16Be(|data|) + data)[..k]) == Failed(UnexpectedEof)
  {
    hide ReadUhidOutput, ReadDeviceEvent, U16Be;
    var rest := U16Be(id) + U16Be(|data|) + data;
    assert [TYPE_UHID_OUTPUT] + U16Be(id) + U16Be(|data|) + data == [TYPE_UHID_OUTPUT] + rest;
    CutOutput(id, data, k - 1);
    ReadCut(p, TYPE_UHID_OUTPUT, rest, k);
  }

  lemma CutOutput(id: u16, data: seq<byte>, k: nat)
    requires |data| <= 0xFFFF && k < 4 + |data|
    ensures ReadUhidOutput((U16Be(id) + U16Be(|data|) + data)[..k]) == Failed(UnexpectedEof)
  {
    hide Take;
    var size := U16Be(|data|);
    var b := (U16Be(id) + size + data)[..k];
    if k < 2 {
      TakeShort(b, 2);
    } else {
      assert U16Be(id) + size + data == U16Be(id) + (size + data);
      SplitPrefix(U16Be(id), size + data, k);
      TakeExactly(U16Be(id), (size + data)[..k - 2]);
      if k < 4 {
        TakeShort((size + data)[..k - 2], 2);
      } else {
        SplitPrefix(size, data, k - 2);
        TakeExactly(size, data[..k - 4]);
        TakeShort(data[..k - 4], |data|);
      }
    }
  }

  lemma WholePayload(payload: seq<byte>, rest: seq<byte>)
    requires |payload| <= MAX_PAYLOAD
    ensures var b := U32Be(|payload|) + payload + rest;
            && Take(b, 4) == Got((U32Be(|payload|), payload + rest))
            && Take(payload + rest, |payload|) == Got((payload, rest))
            && ReadU32Be(U32Be(|payload|)) == |payload|
  {
    assert U32Be(|payload|) + payload + rest == U32Be(|payload|) + (payload + rest);
    TakeExactly(U32Be(|payload|), payload + rest);
    TakeExactly(payload, rest);
    U32RoundTrip(|payload|);
  }

  /** A complete payload that its parser rejects is reported as such, whatever follows it: text that is
      not UTF-8, a summary or statistics that do not parse. */
  lemma BadPayloadsAreNamed<F, S>(p: Parsers<F, S>, tag: byte, payload: seq<byte>, rest: seq<byte>)
    requires tag in {TYPE_CLIPBOARD, TYPE_FRAME_SUMMARY, TYPE_AI_STATS} && |payload| <= MAX_PAYLOAD
    ensures var r := ReadDeviceEvent(p, [tag] + (U32Be(|payload|) + payload + rest));
            && (tag == TYPE_CLIPBOARD && Utf8.Decode(payload) == None ==> r == Failed(NotUtf8))
            && (tag == TYPE_FRAME_SUMMARY && p.frame(payload) == None ==> r == Failed(BadSummary))
            && (tag == TYPE_AI_STATS && p.stats(payload) == None ==> r == Failed(BadStats))
  {
    WholePayload(payload, rest);
    hide Take, Utf8.Decode, U32Be, ReadU32Be;
    var b := U32Be(|payload|) + payload + rest;
    assert ([tag] + b)[1..] == b && ([tag] + b)[0] == tag;
  }
}
