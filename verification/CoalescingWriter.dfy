/** The coalescing writer as the object of src/coalesce.rs: buffers, counters and loops over
    chunks and frames, each method proved against its function in Coalesce. */
module CoalescingWriters {
  import opened Bytes
  import opened Frames
  import opened Messages
  import C = Coalesce

  const DIRECT_GAMEPAD_BATCH_BYTES := C.DIRECT_GAMEPAD_BATCH_FRAMES * GAMEPAD_MESSAGE_BYTES

  // Encoders -----------------------------------------------------------------------------

  /** The growable-buffer encoder of packed frames. */
  method PushGamepadInputToBuf(buf: seq<byte>, id: u16, data: Payload) returns (out: seq<byte>)
    ensures out == buf + InputMessage(id, data)
  {
    out := buf + [INPUT_TAG];
    out := out + U16Be(id);
    out := out + U16Be(15);
    out := out + data;
    assert out == buf + InputMessage(id, data);
  }

  /** The growable-buffer encoder of raw fields; it never builds the packed payload. */
  method PushGamepadInputFieldsToBuf(buf: seq<byte>, id: u16, frame: PadFrame) returns (out: seq<byte>)
    ensures out == buf + InputMessage(id, Pack(frame))
  {
    hide Offset, ClampTrigger, U16Le, U16Be, HatValue, InputMessage, Pack;
    FieldsMessage(id, frame);
    var leftX, leftY := Offset(frame.leftX), Offset(frame.leftY);
    var rightX, rightY := Offset(frame.rightX), Offset(frame.rightY);
    var leftTrigger, rightTrigger := ClampTrigger(frame.leftTrigger), ClampTrigger(frame.rightTrigger);
    out := buf + [INPUT_TAG] + U16Be(id) + U16Be(15);
    out := out + U16Le(leftX) + U16Le(leftY) + U16Le(rightX) + U16Le(rightY);
    out := out + U16Le(leftTrigger) + U16Le(rightTrigger);
    out := out + U16Le(frame.buttons % 0x1_0000) + [HatValue(frame.buttons)];
    assert out == buf + InputMessage(id, Pack(frame));
  }

  method CopyInto(buf: array<byte>, at: nat, bytes: seq<byte>)
    requires at + |bytes| <= buf.Length
    modifies buf
    ensures buf[..] == old(buf[..at]) + bytes + old(buf[at + |bytes|..])
  {
    for i := 0 to |bytes|
      invariant buf[..at] == old(buf[..at])
      invariant buf[at..at + i] == bytes[..i]
      invariant buf[at + i..] == old(buf[at + i..])
    {
      buf[at + i] := bytes[i];
    }
    assert buf[..] == buf[..at] + buf[at..at + |bytes|] + buf[at + |bytes|..];
  }

  /** The fixed-slice encoder of packed frames, at `at` in a larger array. */
  method EncodeGamepadInputSlice(buf: array<byte>, at: nat, id: u16, data: Payload)
    requires at + GAMEPAD_MESSAGE_BYTES <= buf.Length
    modifies buf
    ensures buf[..] == old(buf[..at]) + InputMessage(id, data) + old(buf[at + 20..])
  {
    buf[at] := INPUT_TAG;
    buf[at + 1], buf[at + 2] := U16Be(id)[0], U16Be(id)[1];
    buf[at + 3], buf[at + 4] := U16Be(15)[0], U16Be(15)[1];
    CopyInto(buf, at + 5, data);
    assert buf[..] == old(buf[..at]) + InputHeader(id) + data + old(buf[at + 20..]);
  }

  /** Write `bytes` at `at`, extending the message that starts at `start`. */
  method PutSlice(buf: array<byte>, start: nat, at: nat, bytes: seq<byte>)
    requires start <= at && at + |bytes| <= buf.Length
    modifies buf
    ensures buf[start..at + |bytes|] == old(buf[start..at]) + bytes
    ensures buf[..start] == old(buf[..start])
    ensures forall i :: at + |bytes| <= i < buf.Length ==> buf[i] == old(buf[i])
  {
    CopyInto(buf, at, bytes);
    var all := buf[..];
    assert all[start..at + |bytes|] == old(buf[start..at]) + bytes;
    assert all[..start] == old(buf[..start]);
    assert forall i :: at + |bytes| <= i < buf.Length ==> all[i] == old(buf[at + |bytes|..])[i - at - |bytes|];
  }

  method PutPair(buf: array<byte>, start: nat, at: nat, first: seq<byte>, second: seq<byte>)
    requires start <= at && at + |first| + |second| <= buf.Length
    modifies buf
    ensures buf[start..at + |first| + |second|] == old(buf[start..at]) + first + second
    ensures buf[..start] == old(buf[..start])
    ensures forall i :: at + |first| + |second| <= i < buf.Length ==> buf[i] == old(buf[i])
  {
    PutSlice(buf, start, at, first);
    PutSlice(buf, start, at + |first|, second);
  }

  method PutFour(buf: array<byte>, start: nat, at: nat, a: seq<byte>, b: seq<byte>, c: seq<byte>, d: seq<byte>)
    requires start <= at && at + |a| + |b| + |c| + |d| <= buf.Length
    modifies buf
    ensures buf[start..at + |a| + |b| + |c| + |d|] == old(buf[start..at]) + a + b + c + d
    ensures buf[..start] == old(buf[..start])
    ensures forall i :: at + |a| + |b| + |c| + |d| <= i < buf.Length ==> buf[i] == old(buf[i])
  {
    PutPair(buf, start, at, a, b);
    PutPair(buf, start, at + |a| + |b|, c, d);
  }

  lemma FieldsMessage(id: u16, frame: PadFrame)
    ensures InputMessage(id, Pack(frame)) ==
            [INPUT_TAG] + U16Be(id) + U16Be(15) + U16Le(Offset(frame.leftX)) + U16Le(Offset(frame.leftY))
            + U16Le(Offset(frame.rightX)) + U16Le(Offset(frame.rightY))
            + U16Le(ClampTrigger(frame.leftTrigger)) + U16Le(ClampTrigger(frame.rightTrigger))
            + U16Le(frame.buttons % 0x1_0000) + [HatValue(frame.buttons)]
  {
    hide Offset, ClampTrigger, U16Le, U16Be, HatValue;
  }

  /** The fixed-slice encoder of raw fields. */
  method EncodeGamepadInputFieldsSlice(buf: array<byte>, at: nat, id: u16, frame: PadFrame)
    requires at + GAMEPAD_MESSAGE_BYTES <= buf.Length
    modifies buf
    ensures buf[..] == old(buf[..at]) + InputMessage(id, Pack(frame)) + old(buf[at + 20..])
  {
    hide Offset, ClampTrigger, U16Le, U16Be, HatValue, InputMessage, Pack;
    PutSlice(buf, at, at, [INPUT_TAG] + U16Be(id) + U16Be(15));
    var leftX, leftY := U16Le(Offset(frame.leftX)), U16Le(Offset(frame.leftY));
    var rightX, rightY := U16Le(Offset(frame.rightX)), U16Le(Offset(frame.rightY));
    var leftTrigger, rightTrigger := U16Le(ClampTrigger(frame.leftTrigger)), U16Le(ClampTrigger(frame.rightTrigger));
    PutFour(buf, at, at + 5, leftX, leftY, rightX, rightY);
    PutFour(buf, at, at + 13, leftTrigger, rightTrigger, U16Le(frame.buttons % 0x1_0000), [HatValue(frame.buttons)]);
    FieldsMessage(id, frame);
    assert buf[at..at + 20] == InputMessage(id, Pack(frame));
    assert buf[at + 20..] == old(buf[at + 20..]);
    assert buf[..] == buf[..at] + buf[at..at + 20] + buf[at + 20..];
  }

  /** The growable-buffer encoder of any UHID input, with its length checks. */
  method PushUhidInputToBuf(buf: seq<byte>, id: u16, size: u16, data: seq<byte>) returns (r: Result<seq<byte>>)
    ensures match Serialize(UhidInput(id, size, data))
            case Err(x) => r == Err(x)
            case Ok(bytes) => r == Ok(buf + bytes)
  {
    if size > HID_MAX_SIZE || size > |data| { return Err(ControlMessageTooLarge); }
    var out := buf + [INPUT_TAG];
    out := out + U16Be(id);
    out := out + U16Be(size);
    out := out + data[..size];
    assert out == buf + ([INPUT_TAG] + U16Be(id) + U16Be(size) + data[..size]);
    r := Ok(out);
  }

  /** The fixed-array encoder of any UHID input; returns the length used. */
  method EncodeUhidInputToArray(buf: array<byte>, id: u16, size: u16, data: seq<byte>) returns (r: Result<nat>)
    requires buf.Length == HID_MAX_SIZE + 5
    modifies buf
    ensures match Serialize(UhidInput(id, size, data))
            case Err(x) => r == Err(x)
            case Ok(bytes) => |bytes| <= buf.Length && r == Ok(|bytes|) && buf[..|bytes|] == bytes
  {
    if size > HID_MAX_SIZE || size > |data| { return Err(ControlMessageTooLarge); }
    buf[0] := INPUT_TAG;
    buf[1], buf[2] := U16Be(id)[0], U16Be(id)[1];
    buf[3], buf[4] := U16Be(size)[0], U16Be(size)[1];
    PutSlice(buf, 0, 5, data[..size]);
    assert buf[..5 + size] == buf[0..5 + size];
    r := Ok(5 + size);
  }

  // The writer ---------------------------------------------------------------------------

  class CoalescingWriter {
    const env: C.Env
    const direct: bool
    const hardLimit: nat
    var wire: seq<byte>
    var calls: nat
    var made: seq<C.TransportCall>
    var ticks: nat
    var pending: seq<byte>
    var scratch: seq<byte>
    var pushed: nat
    var written: nat
    var flushes: nat

    function View(): C.Writer
      reads this
    {
      C.Writer(direct, hardLimit, wire, calls, made, ticks, pending, pushed, written, flushes)
    }

    constructor WithLimits(env: C.Env, windowIsZero: bool, hardLimit: nat)
      ensures View() == C.WithLimits(windowIsZero, hardLimit) && this.env == env
    {
      this.env := env;
      this.direct := hardLimit == 0 && windowIsZero;
      this.hardLimit := hardLimit;
      wire, calls, made, ticks := [], 0, [], 0;
      pending, scratch := [], [];
      pushed, written, flushes := 0, 0, 0;
    }

    method TransportWriteAll(bytes: seq<byte>) returns (r: Result<()>)
      modifies this`wire, this`calls, this`made
      ensures (View(), r) == C.WriteAll(env, old(View()), bytes)
    {
      if env.writeOk(calls) {
        wire := wire + bytes;
        r := Ok(());
      } else {
        r := Err(WriteFailed(calls));
      }
      calls, made := calls + 1, made + [C.WriteCall];
    }

    method TransportFlush() returns (r: Result<()>)
      modifies this`calls, this`made
      ensures (View(), r) == C.FlushTransport(env, old(View()))
    {
      r := if env.flushOk(calls) then Ok(()) else Err(FlushFailed(calls));
      calls, made := calls + 1, made + [C.FlushCall];
    }

    method WindowExpired() returns (b: bool)
      modifies this`ticks
      ensures b == env.expired(old(ticks)) && ticks == old(ticks) + 1
    {
      b := env.expired(ticks);
      ticks := ticks + 1;
    }

    method WriteThrough(bytes: seq<byte>) returns (r: Result<()>)
      modifies this
      ensures (View(), r) == C.SendNow(env, old(View()), bytes)
    {
      r := TransportWriteAll(bytes);
      if r.Err? { return; }
      r := TransportFlush();
      if r.Err? { return; }
      written := written + |bytes|;
      flushes := flushes + 1;
    }

    method FlushNow() returns (r: Result<nat>)
      modifies this
      ensures (View(), r) == C.FlushNow(env, old(View()))
    {
      if pending == [] { return Ok(0); }
      var n := |pending|;
      var sent := TransportWriteAll(pending);
      if sent.Err? { return Err(sent.error); }
      sent := TransportFlush();
      if sent.Err? { return Err(sent.error); }
      pending := [];
      written := written + n;
      flushes := flushes + 1;
      r := Ok(n);
    }

    /** The checks that end every buffered single push. */
    method Settle() returns (r: Result<C.FlushReason>)
      modifies this
      ensures (View(), r) == C.Settle(env, old(View()))
    {
      hide C.FlushNow;
      if |pending| >= hardLimit {
        var flushed := FlushNow();
        return if flushed.Err? then Err(flushed.error) else Ok(C.Full);
      }
      r := CheckWindow(C.Pending);
    }

    method CheckWindow(otherwise: C.FlushReason) returns (r: Result<C.FlushReason>)
      modifies this
      ensures (View(), r) == C.CheckWindow(env, old(View()), otherwise)
    {
      hide C.FlushNow;
      var expired := WindowExpired();
      if expired && pending != [] {
        var flushed := FlushNow();
        return if flushed.Err? then Err(flushed.error) else Ok(C.Window);
      }
      r := Ok(otherwise);
    }

    method PushDirect(msg: Msg) returns (r: Result<C.FlushReason>)
      requires direct
      modifies this
      ensures (View(), r) == C.Push(env, old(View()), msg)
    {
      hide C.SendNow, Serialize;
      pushed := pushed + 1;
      if msg.UhidInput? {
        var raw := new byte[HID_MAX_SIZE + 5](_ => 0);
        var used := EncodeUhidInputToArray(raw, msg.id, msg.size, msg.data);
        if used.Err? { return Err(used.error); }
        var sent := WriteThrough(raw[..used.value]);
        if sent.Err? { return Err(sent.error); }
        r := Ok(C.Window);
      } else {
        var serialized := Serialize(msg);
        if serialized.Err? { return Err(serialized.error); }
        scratch := serialized.value;
        var sent := WriteThrough(scratch);
        if sent.Err? { return Err(sent.error); }
        scratch := [];
        r := Ok(if msg.Critical() then C.Critical else C.Window);
      }
    }

    method Push(msg: Msg) returns (r: Result<C.FlushReason>)
      modifies this
      ensures (View(), r) == C.Push(env, old(View()), msg)
    {
      hide C.SendNow, C.FlushNow, C.Settle, Serialize;
      if direct {
        r := PushDirect(msg);
        return;
      }
      pushed := pushed + 1;
      if msg.Critical() {
        var flushed := FlushNow();
        if flushed.Err? { return Err(flushed.error); }
        var critical := Serialize(msg);
        if critical.Err? { return Err(critical.error); }
        scratch := critical.value;
        var sent := WriteThrough(scratch);
        if sent.Err? { return Err(sent.error); }
        scratch := [];
        return Ok(C.Critical);
      }
      if msg.UhidInput? {
        var extended := PushUhidInputToBuf(pending, msg.id, msg.size, msg.data);
        if extended.Err? { return Err(extended.error); }
        pending := extended.value;
      } else {
        var serialized := Serialize(msg);
        if serialized.Err? { return Err(serialized.error); }
        scratch := serialized.value;
        pending := pending + scratch;
      }
      r := Settle();
    }

    method PushUhidInput(id: u16, size: u16, data: seq<byte>) returns (r: Result<C.FlushReason>)
      modifies this
      ensures (View(), r) == C.Push(env, old(View()), UhidInput(id, size, data))
    {
      hide C.SendNow, C.Settle, Serialize;
      pushed := pushed + 1;
      if direct {
        var raw := new byte[HID_MAX_SIZE + 5](_ => 0);
        var used := EncodeUhidInputToArray(raw, id, size, data);
        if used.Err? { return Err(used.error); }
        var sent := WriteThrough(raw[..used.value]);
        return if sent.Err? then Err(sent.error) else Ok(C.Window);
      }
      var extended := PushUhidInputToBuf(pending, id, size, data);
      if extended.Err? { return Err(extended.error); }
      pending := extended.value;
      r := Settle();
    }

    method PushGamepadInput(id: u16, data: Payload) returns (r: Result<C.FlushReason>)
      modifies this
      ensures (View(), r) == C.PushEncoded(env, old(View()), InputMessage(id, data))
    {
      hide C.SendNow, C.Settle, InputMessage;
      pushed := pushed + 1;
      if direct {
        var raw := new byte[20](_ => 0);
        EncodeGamepadInputSlice(raw, 0, id, data);
        assert raw[..] == InputMessage(id, data);
        var sent := WriteThrough(raw[..]);
        return if sent.Err? then Err(sent.error) else Ok(C.Window);
      }
      pending := PushGamepadInputToBuf(pending, id, data);
      r := Settle();
    }

    method PushGamepadInputFields(id: u16, frame: PadFrame) returns (r: Result<C.FlushReason>)
      modifies this
      ensures (View(), r) == C.PushEncoded(env, old(View()), InputMessage(id, Pack(frame)))
    {
      hide C.SendNow, C.Settle, InputMessage, Pack;
      pushed := pushed + 1;
      if direct {
        var raw := new byte[20](_ => 0);
        EncodeGamepadInputFieldsSlice(raw, 0, id, frame);
        assert raw[..] == InputMessage(id, Pack(frame));
        var sent := WriteThrough(raw[..]);
        return if sent.Err? then Err(sent.error) else Ok(C.Window);
      }
      pending := PushGamepadInputFieldsToBuf(pending, id, frame);
      r := Settle();
    }

    method PushGamepadInputBatch(id: u16, data: seq<Payload>) returns (r: Result<C.FlushReason>)
      modifies this
      ensures (View(), r) == C.PushBatch(env, old(View()), InputMessages(id, data))
    {
      hide C.PushEncoded, C.DirectBatch, C.CheckWindow, C.BufferEach, InputMessage;
      ghost var parts := InputMessages(id, data);
      if data == [] { return Ok(C.Pending); }
      if |data| == 1 {
        r := PushGamepadInput(id, data[0]);
        return;
      }
      pushed := pushed + |data|;
      if direct {
        r := PushBatchDirect(id, data);
      } else if |pending| + |data| * GAMEPAD_MESSAGE_BYTES <= hardLimit {
        for i := 0 to |data|
          modifies this`pending
          invariant View() == old(View()).(pushed := pushed, pending := old(pending) + Concat(parts[..i]))
          invariant unchanged(this`scratch)
        {
          pending := PushGamepadInputToBuf(pending, id, data[i]);
          assert parts[..i + 1] == parts[..i] + [parts[i]];
          ConcatSnoc(parts[..i], parts[i]);
        }
        assert parts[..|data|] == parts;
        r := CheckWindow(C.Pending);
      } else {
        r := PushBatchOverLimit(id, data);
      }
    }

    method PushBatchDirect(id: u16, data: seq<Payload>) returns (r: Result<C.FlushReason>)
      requires direct
      modifies this
      ensures (View(), r) == C.DirectBatch(env, old(View()), InputMessages(id, data))
    {
      hide C.WriteAll, InputMessages, InputMessage, Concat;
      InputMessagesCount(id, data);
      ghost var parts := InputMessages(id, data);
      ghost var w0 := View();
      var serialized := 0;
      var raw := new byte[DIRECT_GAMEPAD_BATCH_BYTES](_ => 0);
      var start := 0;
      while start < |data|
        invariant start <= |data|
        invariant C.DirectChunks(env, w0, parts) == C.DirectChunks(env, View(), parts[start..])
        invariant serialized == |Concat(parts[..start])|
      {
        var n := Min(|data| - start, C.DIRECT_GAMEPAD_BATCH_FRAMES);
        EncodeChunk(raw, id, data[start..start + n]);
        PackedChunk(id, data, start, n);
        ghost var chunk := parts[start..][..n];
        var offset := n * GAMEPAD_MESSAGE_BYTES;
        var sent := TransportWriteAll(raw[..offset]);
        assert parts[start..][n..] == parts[start + n..];
        if sent.Err? { return Err(sent.error); }
        assert parts[..start + n] == parts[..start] + chunk;
        ConcatAppend(parts[..start], chunk);
        serialized := serialized + offset;
        start := start + n;
      }
      assert parts[..start] == parts && parts[start..] == [];
      var flushed := TransportFlush();
      if flushed.Err? { return Err(flushed.error); }
      written := written + serialized;
      flushes := flushes + 1;
      r := Ok(C.Window);
    }

    method PushBatchOverLimit(id: u16, data: seq<Payload>) returns (r: Result<C.FlushReason>)
      modifies this
      ensures (View(), r) == C.BufferEach(env, old(View()), InputMessages(id, data), C.Pending)
    {
      hide C.FlushNow, C.CheckWindow, InputMessage;
      ghost var parts := InputMessages(id, data);
      ghost var w0 := View();
      var reason := C.Pending;
      for i := 0 to |data|
        invariant C.BufferEach(env, w0, parts, C.Pending) == C.BufferEach(env, View(), parts[i..], reason)
      {
        pending := PushGamepadInputToBuf(pending, id, data[i]);
        assert parts[i..][0] == parts[i] && parts[i..][1..] == parts[i + 1..];
        if |pending| >= hardLimit {
          var flushed := FlushNow();
          if flushed.Err? { return Err(flushed.error); }
          reason := C.Full;
        }
      }
      r := CheckWindow(reason);
    }

    method PushGamepadInputBatchFromFields(id: u16, frames: seq<PadFrame>) returns (r: Result<C.FlushReason>)
      modifies this
      ensures (View(), r) == C.PushBatch(env, old(View()), InputMessages(id, PackAll(frames)))
    {
      hide C.PushEncoded, C.DirectBatch, C.CheckWindow, C.BufferEach, InputMessage, Pack;
      ghost var parts := InputMessages(id, PackAll(frames));
      if frames == [] { return Ok(C.Pending); }
      if |frames| == 1 {
        r := PushGamepadInputFields(id, frames[0]);
        return;
      }
      pushed := pushed + |frames|;
      if direct {
        r := PushFieldsDirect(id, frames);
      } else if |pending| + |frames| * GAMEPAD_MESSAGE_BYTES <= hardLimit {
        for i := 0 to |frames|
          modifies this`pending
          invariant View() == old(View()).(pushed := pushed, pending := old(pending) + Concat(parts[..i]))
          invariant unchanged(this`scratch)
        {
          pending := PushGamepadInputFieldsToBuf(pending, id, frames[i]);
          assert parts[..i + 1] == parts[..i] + [parts[i]];
          ConcatSnoc(parts[..i], parts[i]);
        }
        assert parts[..|frames|] == parts;
        r := CheckWindow(C.Pending);
      } else {
        r := PushFieldsOverLimit(id, frames);
      }
    }

    method PushFieldsDirect(id: u16, frames: seq<PadFrame>) returns (r: Result<C.FlushReason>)
      requires direct
      modifies this
      ensures (View(), r) == C.DirectBatch(env, old(View()), InputMessages(id, PackAll(frames)))
    {
      hide C.WriteAll, InputMessages, InputMessage, Pack, PackAll, Concat;
      InputMessagesCount(id, PackAll(frames));
      ghost var parts := InputMessages(id, PackAll(frames));
      ghost var w0 := View();
      var serialized := 0;
      var raw := new byte[DIRECT_GAMEPAD_BATCH_BYTES](_ => 0);
      var start := 0;
      while start < |frames|
        invariant start <= |frames|
        invariant C.DirectChunks(env, w0, parts) == C.DirectChunks(env, View(), parts[start..])
        invariant serialized == |Concat(parts[..start])|
      {
        var n := Min(|frames| - start, C.DIRECT_GAMEPAD_BATCH_FRAMES);
        EncodeFieldsChunk(raw, id, frames[start..start + n]);
        FieldsChunk(id, frames, start, n);
        ghost var chunk := parts[start..][..n];
        var offset := n * GAMEPAD_MESSAGE_BYTES;
        var sent := TransportWriteAll(raw[..offset]);
        assert parts[start..][n..] == parts[start + n..];
        if sent.Err? { return Err(sent.error); }
        assert parts[..start + n] == parts[..start] + chunk;
        ConcatAppend(parts[..start], chunk);
        serialized := serialized + offset;
        start := start + n;
      }
      assert parts[..start] == parts && parts[start..] == [];
      var flushed := TransportFlush();
      if flushed.Err? { return Err(flushed.error); }
      written := written + serialized;
      flushes := flushes + 1;
      r := Ok(C.Window);
    }

    method PushFieldsOverLimit(id: u16, frames: seq<PadFrame>) returns (r: Result<C.FlushReason>)
      modifies this
      ensures (View(), r) == C.BufferEach(env, old(View()), InputMessages(id, PackAll(frames)), C.Pending)
    {
      hide C.FlushNow, C.CheckWindow, InputMessage, Pack;
      ghost var parts := InputMessages(id, PackAll(frames));
      ghost var w0 := View();
      var reason := C.Pending;
      for i := 0 to |frames|
        invariant C.BufferEach(env, w0, parts, C.Pending) == C.BufferEach(env, View(), parts[i..], reason)
      {
        pending := PushGamepadInputFieldsToBuf(pending, id, frames[i]);
        assert parts[i..][0] == parts[i] && parts[i..][1..] == parts[i + 1..];
        if |pending| >= hardLimit {
          var flushed := FlushNow();
          if flushed.Err? { return Err(flushed.error); }
          reason := C.Full;
        }
      }
      r := CheckWindow(reason);
    }

    method IntoInner() returns (r: Result<seq<byte>>)
      modifies this
      ensures r == C.IntoInner(env, old(View()))
    {
      var flushed := FlushNow();
      r := if flushed.Err? then Err(flushed.error) else Ok(wire);
    }
  }

  lemma InputMessagesCount(id: u16, data: seq<Payload>)
    ensures |InputMessages(id, data)| == |data| && Concat(InputMessages(id, data)[..0]) == []
  {
  }

  lemma PackedChunk(id: u16, data: seq<Payload>, start: nat, n: nat)
    requires start + n <= |data|
    ensures InputMessages(id, data[start..start + n]) == InputMessages(id, data)[start..][..n]
    ensures |Concat(InputMessages(id, data[start..start + n]))| == n * GAMEPAD_MESSAGE_BYTES
  {
    ConcatLength(InputMessages(id, data[start..start + n]), GAMEPAD_MESSAGE_BYTES);
  }

  lemma FieldsChunk(id: u16, frames: seq<PadFrame>, start: nat, n: nat)
    requires start + n <= |frames|
    ensures InputMessages(id, PackAll(frames[start..start + n])) == InputMessages(id, PackAll(frames))[start..][..n]
    ensures |Concat(InputMessages(id, PackAll(frames[start..start + n])))| == n * GAMEPAD_MESSAGE_BYTES
  {
    assert PackAll(frames[start..start + n]) == PackAll(frames)[start..start + n];
    PackedChunk(id, PackAll(frames), start, n);
  }

  method EncodeChunk(raw: array<byte>, id: u16, data: seq<Payload>)
    requires |data| * GAMEPAD_MESSAGE_BYTES <= raw.Length
    modifies raw
    ensures raw[..|data| * GAMEPAD_MESSAGE_BYTES] == Concat(InputMessages(id, data))
  {
    hide InputMessage;
    ghost var parts := InputMessages(id, data);
    var offset := 0;
    for i := 0 to |data|
      invariant offset == i * GAMEPAD_MESSAGE_BYTES
      invariant raw[..offset] == Concat(parts[..i])
    {
      EncodeGamepadInputSlice(raw, offset, id, data[i]);
      assert parts[..i + 1] == parts[..i] + [parts[i]];
      ConcatSnoc(parts[..i], parts[i]);
      offset := offset + GAMEPAD_MESSAGE_BYTES;
    }
    assert parts[..|data|] == parts;
  }

  method EncodeFieldsChunk(raw: array<byte>, id: u16, frames: seq<PadFrame>)
    requires |frames| * GAMEPAD_MESSAGE_BYTES <= raw.Length
    modifies raw
    ensures raw[..|frames| * GAMEPAD_MESSAGE_BYTES] == Concat(InputMessages(id, PackAll(frames)))
  {
    hide InputMessage, Pack;
    ghost var parts := InputMessages(id, PackAll(frames));
    var offset := 0;
    for i := 0 to |frames|
      invariant offset == i * GAMEPAD_MESSAGE_BYTES
      invariant raw[..offset] == Concat(parts[..i])
    {
      EncodeGamepadInputFieldsSlice(raw, offset, id, frames[i]);
      assert parts[..i + 1] == parts[..i] + [parts[i]];
      ConcatSnoc(parts[..i], parts[i]);
      offset := offset + GAMEPAD_MESSAGE_BYTES;
    }
    assert parts[..|frames|] == parts;
  }
}
