/** Bytes on the wire stay there: on every transport, failing or not, nothing that the writer, the
    session or the dispatcher does takes a byte back. */
module WireGrowth {
  import opened Bytes
  import opened Frames
  import opened Messages
  import opened Sessions
  import opened Dispatchers
  import C = Coalesce

  predicate Extends(a: Session, b: Session) {
    a.writer.wire <= b.writer.wire
  }

  lemma ExtendsThenExtends(a: Session, b: Session, c: Session)
    requires Extends(a, b) && Extends(b, c)
    ensures Extends(a, c)
  {
  }

  // The writer ---------------------------------------------------------------------------

  lemma FlushNowExtends(e: C.Env, w: C.Writer)
    ensures w.wire <= C.FlushNow(e, w).0.wire
  {
  }

  lemma SettleExtends(e: C.Env, w: C.Writer)
    ensures w.wire <= C.Settle(e, w).0.wire && forall x :: w.wire <= C.CheckWindow(e, w, x).0.wire
  {
  }

  lemma PushExtends(e: C.Env, w: C.Writer, m: Msg)
    ensures w.wire <= C.Push(e, w, m).0.wire
  {
    hide C.FlushNow, C.Settle, Serialize;
    FlushNowExtends(e, w.(pushed := w.pushed + 1));
    if Serialize(m).Ok? {
      SettleExtends(e, w.(pushed := w.pushed + 1, pending := w.pending + Serialize(m).value));
    }
  }

  lemma PushEncodedExtends(e: C.Env, w: C.Writer, bytes: seq<byte>)
    ensures w.wire <= C.PushEncoded(e, w, bytes).0.wire
  {
    hide C.Settle;
    SettleExtends(e, w.(pushed := w.pushed + 1, pending := w.pending + bytes));
  }

  lemma {:induction false} DirectChunksExtend(e: C.Env, w: C.Writer, parts: seq<seq<byte>>)
    ensures w.wire <= C.DirectChunks(e, w, parts).0.wire
    decreases |parts|
  {
    if parts != [] {
      var n := Min(|parts|, C.DIRECT_GAMEPAD_BATCH_FRAMES);
      DirectChunksExtend(e, C.WriteAll(e, w, Concat(parts[..n])).0, parts[n..]);
    }
  }

  lemma {:induction false} BufferEachExtends(e: C.Env, w: C.Writer, parts: seq<seq<byte>>, reason: C.FlushReason)
    ensures w.wire <= C.BufferEach(e, w, parts, reason).0.wire
    decreases |parts|
  {
    hide C.FlushNow, C.CheckWindow;
    if parts == [] {
      SettleExtends(e, w);
    } else {
      var w1 := w.(pending := w.pending + parts[0]);
      FlushNowExtends(e, w1);
      BufferEachExtends(e, C.FlushNow(e, w1).0, parts[1..], C.Full);
      BufferEachExtends(e, w1, parts[1..], reason);
    }
  }

  lemma PushBatchExtends(e: C.Env, w: C.Writer, parts: seq<seq<byte>>)
    ensures w.wire <= C.PushBatch(e, w, parts).0.wire
  {
    hide C.PushEncoded, C.DirectChunks, C.BufferEach, C.CheckWindow;
    var w1 := w.(pushed := w.pushed + |parts|);
    if |parts| == 1 {
      PushEncodedExtends(e, w, parts[0]);
    }
    DirectChunksExtend(e, w1, parts);
    BufferEachExtends(e, w1, parts, C.Pending);
    SettleExtends(e, w1.(pending := w1.pending + Concat(parts)));
  }

  // The session --------------------------------------------------------------------------

  lemma PerformExtends(e: C.Env, s: Session, it: Item)
    ensures Extends(s, Perform(e, s, it).0)
  {
    hide Plan, C.Push;
    var p := Plan(s.dev, it).1;
    if p.Ok? && p.value.Some? {
      PushExtends(e, s.writer, p.value.value);
    }
  }

  lemma {:induction false} RunItemsExtends(e: C.Env, s: Session, items: seq<Item>)
    ensures Extends(s, RunItems(e, s, items).0)
    decreases |items|
  {
    hide Perform;
    if items != [] {
      PerformExtends(e, s, items[0]);
      RunItemsExtends(e, Perform(e, s, items[0]).0, items[1..]);
    }
  }

  lemma {:induction false} PerformEachExtends(e: C.Env, s: Session, items: seq<Item>)
    ensures Extends(s, PerformEach(e, s, items).0)
    decreases |items|
  {
    hide Perform;
    if items != [] {
      PerformExtends(e, s, items[0]);
      PerformEachExtends(e, Perform(e, s, items[0]).0, items[1..]);
    }
  }

  lemma {:induction false} DedupeExtends(
    e: C.Env, w: C.Writer, slot: Slot, staged: seq<Payload>, sent: nat, frames: seq<PadFrame>)
    ensures w.wire <= DedupeFrom(e, w, slot, staged, sent, frames).0.wire
    decreases |frames|
  {
    hide C.PushBatch, FullState, InputMessages;
    if frames == [] {
      PushBatchExtends(e, w, InputMessages(HID_ID_GAMEPAD, staged));
    } else {
      var (slot1, report) := FullState(slot, frames[0]);
      if report == None {
        DedupeExtends(e, w, slot1, staged, sent, frames[1..]);
      } else {
        var staged1 := staged + [report.value];
        var w1 := C.PushBatch(e, w, InputMessages(HID_ID_GAMEPAD, staged1)).0;
        PushBatchExtends(e, w, InputMessages(HID_ID_GAMEPAD, staged1));
        DedupeExtends(e, w1, slot1, [], sent + 1, frames[1..]);
        DedupeExtends(e, w, slot1, staged1, sent + 1, frames[1..]);
      }
    }
  }

  lemma SendExtends(e: C.Env, s: Session, m: Msg)
    ensures Extends(s, Send(e, s, m).0)
  {
    PushExtends(e, s.writer, m);
  }

  lemma CloseAllExtends(e: C.Env, s: Session)
    ensures Extends(s, CloseAll(e, s).0)
  {
    hide Send;
    SendExtends(e, s, UhidDestroy(HID_ID_KEYBOARD));
    var s1 := CloseKeyboard(e, s).0;
    SendExtends(e, s1, UhidDestroy(HID_ID_MOUSE));
    var s2 := CloseMouse(e, s1).0;
    if s2.dev.pad.Some? {
      SendExtends(e, s2.(dev := s2.dev.(pad := Some(s2.dev.pad.value.(bound := false)))), UhidDestroy(HID_ID_GAMEPAD));
    }
  }

  // The dispatcher -----------------------------------------------------------------------

  lemma ExecuteExtends(e: C.Env, s: Session, cmd: Cmd)
    ensures Extends(s, Execute(e, s, cmd).0)
  {
    hide Perform, PerformEach, DedupeFrom, RunItems, CloseAll, C.FlushNow, C.PushBatch;
    match cmd
    case Single(it) => PerformExtends(e, s, it);
    case FixedBatch(items) => PerformEachExtends(e, s, items);
    case FrameBatch(frames) =>
      if PadReady(s.dev).Ok? {
        DedupeExtends(e, s.writer, PadReady(s.dev).value.slot, [], 0, frames);
      }
    case FrameBatchUnchecked(frames) => PushBatchExtends(e, s.writer, InputMessages(HID_ID_GAMEPAD, PackAll(frames)));
    case PackedBatch(payloads) => PushBatchExtends(e, s.writer, InputMessages(HID_ID_GAMEPAD, payloads));
    case Text(text, strict) => RunItemsExtends(e, s, Sessions.TypeText(text, strict).items);
    case Tap(scancode, mods) => RunItemsExtends(e, s, KeyTap(scancode, mods).items);
    case AndroidTap(k, m) => RunItemsExtends(e, s, AndroidKeyTap(k, m).items);
    case SetScreenSize(w, h) =>
    case Flush => FlushNowExtends(e, s.writer);
    case FlushAck(_) => FlushNowExtends(e, s.writer);
    case Close => CloseAllExtends(e, s);
  }

  /** On every transport the dispatcher only ever extends the wire. */
  lemma {:induction false} DispatchAllExtends(e: C.Env, d: Dispatcher, cmds: seq<Cmd>)
    ensures d.session.writer.wire <= DispatchAll(e, d, cmds).session.writer.wire
    decreases |cmds|
  {
    hide Execute;
    if !d.stopped && cmds != [] {
      ExecuteExtends(e, d.session, cmds[0]);
      DispatchAllExtends(e, Dispatch(e, d, cmds[0]), cmds[1..]);
    }
  }
}
