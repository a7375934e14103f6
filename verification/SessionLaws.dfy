/** The session against its ideal: device state and messages, with no buffering, batching or
    transport. On a reliable transport every session call does exactly what the ideal does. */
module SessionLaws {
  import opened Bytes
  import opened Frames
  import opened Messages
  import opened Sessions
  import C = Coalesce
  import L = CoalesceLaws

  // The ideal ----------------------------------------------------------------------------

  /** Where the devices end up, the messages sent, and the errors met, in order. */
  datatype Outcome = Outcome(dev: Devices, msgs: seq<Msg>, errors: seq<Error>)

  function Ideal(d: Devices, it: Item): Outcome {
    var (d1, p) := Plan(d, it);
    match p
    case Err(x) => Outcome(d1, [], [x])
    case Ok(None) => Outcome(d1, [], [])
    case Ok(Some(m)) =>
      match Serialize(m)
      case Err(x) => Outcome(d1, [], [x])
      case Ok(_) => Outcome(d1, [m], [])
  }

  /** One after the other, whatever fails. */
  function IdealEach(d: Devices, items: seq<Item>): Outcome
    decreases |items|
  {
    if items == [] then Outcome(d, [], [])
    else
      var o := Ideal(d, items[0]);
      var rest := IdealEach(o.dev, items[1..]);
      Outcome(rest.dev, o.msgs + rest.msgs, o.errors + rest.errors)
  }

  /** One after the other, up to the first failure. */
  function IdealUntilError(d: Devices, items: seq<Item>): Outcome
    decreases |items|
  {
    if items == [] then Outcome(d, [], [])
    else
      var o := Ideal(d, items[0]);
      if o.errors != [] then o
      else
        var rest := IdealUntilError(o.dev, items[1..]);
        Outcome(rest.dev, o.msgs + rest.msgs, rest.errors)
  }

  function IdealScript(d: Devices, script: Script): Outcome {
    var o := IdealUntilError(d, script.items);
    if o.errors == [] && script.ending.Some? then o.(errors := [script.ending.value]) else o
  }

  /** `after` is `before` with the outcome's devices and its messages appended to the stream, and
      nothing taken back from the wire. */
  ghost predicate Did(before: Session, after: Session, o: Outcome) {
    after.dev == o.dev && Appends(before.writer, after.writer, SerializeAll(o.msgs))
  }

  ghost predicate Appends(before: C.Writer, after: C.Writer, bytes: seq<byte>) {
    && after.Valid()
    && after.direct == before.direct && after.hardLimit == before.hardLimit
    && after.Stream() == before.Stream() + bytes
    && |after.wire| >= |before.wire|
  }

  lemma AppendsThenAppends(a: C.Writer, b: C.Writer, c: C.Writer, first: seq<byte>, second: seq<byte>)
    requires Appends(a, b, first) && Appends(b, c, second)
    ensures Appends(a, c, first + second)
  {
    assert a.Stream() + first + second == a.Stream() + (first + second);
  }

  function AsErrors<T>(r: Result<T>): seq<Error> {
    if r.Err? then [r.error] else []
  }

  lemma DidThenDid(a: Session, b: Session, c: Session, first: Outcome, second: Outcome, both: Outcome)
    requires Did(a, b, first) && Did(b, c, second)
    requires both.dev == second.dev && both.msgs == first.msgs + second.msgs
    ensures Did(a, c, both)
  {
    hide SerializeAll, Appends;
    SerializeAllAppend(first.msgs, second.msgs);
    AppendsThenAppends(a.writer, b.writer, c.writer, SerializeAll(first.msgs), SerializeAll(second.msgs));
  }

  // Single calls -------------------------------------------------------------------------

  lemma SendDoes(e: C.Env, s: Session, m: Msg)
    requires C.Reliable(e) && s.writer.Valid()
    ensures var (s', r) := Send(e, s, m);
            match Serialize(m)
            case Ok(_) => r == Ok(()) && Did(s, s', Outcome(s.dev, [m], []))
            case Err(x) => r == Err(x) && Did(s, s', Outcome(s.dev, [], []))
  {
    hide Serialize, Encoding, SerializeAll;
    PushError(e, s.writer, m);
    L.ReliableApply(e, s.writer, C.PushMessage(m));
    L.EncodingOk(m);
    SerializeAllOne(m);
    SerializeAllNone();
    var one: seq<seq<byte>> := [Encoding(m)];
    assert Concat(one) == Encoding(m) + Concat([]);
  }

  lemma SerializeAllNone()
    ensures SerializeAll([]) == []
  {
  }

  lemma PushError(e: C.Env, w: C.Writer, m: Msg)
    requires C.Reliable(e)
    ensures Serialize(m).Err? ==> C.Push(e, w, m).1 == Err(Serialize(m).error)
  {
  }

  lemma PerformDoes(e: C.Env, s: Session, it: Item)
    requires C.Reliable(e) && s.writer.Valid()
    ensures var (s', r) := Perform(e, s, it); var o := Ideal(s.dev, it);
            Did(s, s', o) && AsErrors(r) == o.errors
  {
    hide Send, Serialize, SerializeAll, Plan;
    var (d, p) := Plan(s.dev, it);
    SerializeAllNone();
    if p.Ok? && p.value.Some? {
      SendDoes(e, s.(dev := d), p.value.value);
    }
  }

  lemma {:induction false} RunItemsDoes(e: C.Env, s: Session, items: seq<Item>)
    requires C.Reliable(e) && s.writer.Valid()
    ensures var (s', r) := RunItems(e, s, items); var o := IdealUntilError(s.dev, items);
            Did(s, s', o) && AsErrors(r) == o.errors
    decreases |items|
  {
    hide Perform, Ideal, SerializeAll;
    if items == [] {
      SerializeAllNone();
    } else {
      var (s1, r) := Perform(e, s, items[0]);
      PerformDoes(e, s, items[0]);
      if r.Ok? {
        RunItemsDoes(e, s1, items[1..]);
        DidThenDid(s, s1, RunItems(e, s1, items[1..]).0, Ideal(s.dev, items[0]),
                   IdealUntilError(s1.dev, items[1..]), IdealUntilError(s.dev, items));
      }
    }
  }

  lemma RunScriptDoes(e: C.Env, s: Session, script: Script)
    requires C.Reliable(e) && s.writer.Valid()
    ensures var (s', r) := RunScript(e, s, script); var o := IdealScript(s.dev, script);
            Did(s, s', o) && AsErrors(r) == o.errors
  {
    RunItemsDoes(e, s, script.items);
  }

  /** The fixed-size gamepad push is the general push of the same message, on any transport. */
  lemma GamepadPushIsPush(e: C.Env, w: C.Writer, payload: Payload)
    ensures C.Push(e, w, UhidInput(HID_ID_GAMEPAD, 15, payload))
         == C.PushEncoded(e, w, InputMessage(HID_ID_GAMEPAD, payload))
  {
    hide C.Settle, C.SendFor, Serialize;
    InputMessageIsSerialization(HID_ID_GAMEPAD, payload);
  }

  // Gamepad batches ----------------------------------------------------------------------

  /** The reports a frame sequence produces from a slot. */
  function Reports(slot: Slot, frames: seq<PadFrame>): (Slot, seq<Payload>)
    decreases |frames|
  {
    if frames == [] then (slot, [])
    else
      var (slot1, report) := FullState(slot, frames[0]);
      var (slot2, rest) := Reports(slot1, frames[1..]);
      (slot2, (match report case None => [] case Some(p) => [p]) + rest)
  }

  function ReportMessages(payloads: seq<Payload>): (r: seq<Msg>)
    ensures |r| == |payloads|
    ensures forall i :: 0 <= i < |r| ==> r[i] == UhidInput(HID_ID_GAMEPAD, 15, payloads[i])
  {
    seq(|payloads|, i requires 0 <= i < |payloads| => UhidInput(HID_ID_GAMEPAD, 15, payloads[i]))
  }

  lemma ReportMessagesBytes(payloads: seq<Payload>)
    ensures Encodings(ReportMessages(payloads)) == InputMessages(HID_ID_GAMEPAD, payloads)
    ensures Serializable(ReportMessages(payloads))
  {
    forall i | 0 <= i < |payloads|
      ensures Encodings(ReportMessages(payloads))[i] == InputMessage(HID_ID_GAMEPAD, payloads[i])
      ensures Serialize(ReportMessages(payloads)[i]).Ok?
    {
      InputMessageIsSerialization(HID_ID_GAMEPAD, payloads[i]);
    }
  }

  lemma InputMessagesAppend(a: seq<Payload>, b: seq<Payload>)
    ensures Concat(InputMessages(HID_ID_GAMEPAD, a + b))
         == Concat(InputMessages(HID_ID_GAMEPAD, a)) + Concat(InputMessages(HID_ID_GAMEPAD, b))
  {
    assert InputMessages(HID_ID_GAMEPAD, a + b)
        == InputMessages(HID_ID_GAMEPAD, a) + InputMessages(HID_ID_GAMEPAD, b);
    ConcatAppend(InputMessages(HID_ID_GAMEPAD, a), InputMessages(HID_ID_GAMEPAD, b));
  }

  /** Staging 32 at a time changes nothing: the batch appends exactly the reports, counts them,
      and leaves the slot where one-at-a-time stepping would. */
  lemma BatchAppends(e: C.Env, w: C.Writer, payloads: seq<Payload>)
    requires C.Reliable(e) && w.Valid()
    ensures var (w', r) := C.PushBatch(e, w, InputMessages(HID_ID_GAMEPAD, payloads));
            r.Ok? && Appends(w, w', Concat(InputMessages(HID_ID_GAMEPAD, payloads)))
    ensures payloads == [] ==> Appends(w, w, Concat(InputMessages(HID_ID_GAMEPAD, payloads)))
  {
    hide C.PushBatch, InputMessages;
    L.ReliableBatch(e, w, HID_ID_GAMEPAD, payloads);
    InputMessagesNone();
  }

  lemma AppendsIsValid(before: C.Writer, after: C.Writer, bytes: seq<byte>)
    requires Appends(before, after, bytes)
    ensures after.Valid()
  {
  }

  lemma {:induction false} DedupeAppendsReports(
    e: C.Env, w: C.Writer, slot: Slot, staged: seq<Payload>, sent: nat, frames: seq<PadFrame>)
    requires C.Reliable(e) && w.Valid()
    ensures var (w', slot', r) := DedupeFrom(e, w, slot, staged, sent, frames);
            var (final, reports) := Reports(slot, frames);
            && slot' == final && r == Ok(sent + |reports|)
            && Appends(w, w', Concat(InputMessages(HID_ID_GAMEPAD, staged + reports)))
    decreases |frames|
  {
    hide C.PushBatch, InputMessages, FullState, Concat, Appends;
    if frames == [] {
      assert staged + [] == staged;
      BatchAppends(e, w, staged);
    } else {
      var (slot1, report) := FullState(slot, frames[0]);
      var reports := Reports(slot1, frames[1..]).1;
      if report == None {
        assert [] + reports == reports;
        DedupeAppendsReports(e, w, slot1, staged, sent, frames[1..]);
      } else {
        var staged1 := staged + [report.value];
        assert staged + ([report.value] + reports) == staged1 + reports;
        if |staged1| == C.DIRECT_GAMEPAD_BATCH_FRAMES {
          BatchAppends(e, w, staged1);
          var w1 := C.PushBatch(e, w, InputMessages(HID_ID_GAMEPAD, staged1)).0;
          AppendsIsValid(w, w1, Concat(InputMessages(HID_ID_GAMEPAD, staged1)));
          DedupeAppendsReports(e, w1, slot1, [], sent + 1, frames[1..]);
          assert [] + reports == reports;
          InputMessagesAppend(staged1, reports);
          AppendsThenAppends(w, w1, DedupeFrom(e, w1, slot1, [], sent + 1, frames[1..]).0,
                             Concat(InputMessages(HID_ID_GAMEPAD, staged1)),
                             Concat(InputMessages(HID_ID_GAMEPAD, reports)));
        } else {
          DedupeAppendsReports(e, w, slot1, staged1, sent + 1, frames[1..]);
        }
      }
    }
  }

  lemma InputMessagesNone()
    ensures Concat(InputMessages(HID_ID_GAMEPAD, [])) == []
  {
  }

  function DedupedItems(frames: seq<PadFrame>): (r: seq<Item>)
    ensures |r| == |frames|
    ensures forall i :: 0 <= i < |r| ==> r[i] == PadDeduped(frames[i])
  {
    seq(|frames|, i requires 0 <= i < |frames| => PadDeduped(frames[i]))
  }

  function PackedItems(payloads: seq<Payload>): (r: seq<Item>)
    ensures |r| == |payloads|
    ensures forall i :: 0 <= i < |r| ==> r[i] == PadPacked(payloads[i])
  {
    seq(|payloads|, i requires 0 <= i < |payloads| => PadPacked(payloads[i]))
  }

  function UncheckedItems(frames: seq<PadFrame>): (r: seq<Item>)
    ensures |r| == |frames|
    ensures forall i :: 0 <= i < |r| ==> r[i] == PadUnchecked(frames[i])
  {
    seq(|frames|, i requires 0 <= i < |frames| => PadUnchecked(frames[i]))
  }

  lemma {:induction false} IdealDeduped(d: Devices, frames: seq<PadFrame>)
    requires PadReady(d).Ok?
    ensures var pad := PadReady(d).value;
            var (slot, reports) := Reports(pad.slot, frames);
            IdealEach(d, DedupedItems(frames)) ==
            Outcome(d.(pad := Some(pad.(slot := slot))), ReportMessages(reports), [])
    decreases |frames|
  {
    hide FullState;
    var items := DedupedItems(frames);
    if frames != [] {
      var pad := PadReady(d).value;
      var (slot1, report) := FullState(pad.slot, frames[0]);
      var d1 := d.(pad := Some(pad.(slot := slot1)));
      assert items[1..] == DedupedItems(frames[1..]);
      if report.Some? {
        InputMessageIsSerialization(HID_ID_GAMEPAD, report.value);
      }
      IdealDeduped(d1, frames[1..]);
      var reports := Reports(slot1, frames[1..]).1;
      if report.Some? {
        var first := UhidInput(HID_ID_GAMEPAD, 15, report.value);
        assert ReportMessages([report.value] + reports) == [first] + ReportMessages(reports);
      }
      assert [] + reports == reports && [] + ReportMessages(reports) == ReportMessages(reports);
    }
  }

  lemma {:induction false} IdealNotReady(d: Devices, items: seq<Item>)
    requires PadReady(d).Err? && items != []
    requires forall i :: 0 <= i < |items| ==>
      items[i].PadDeduped? || items[i].PadPacked? || items[i].PadUnchecked?
    ensures var o := IdealEach(d, items);
            o.dev == d && o.msgs == [] && o.errors != [] && o.errors[0] == PadReady(d).error
    decreases |items|
  {
    assert Ideal(d, items[0]) == Outcome(d, [], [PadReady(d).error]);
    if |items| > 1 {
      IdealNotReady(d, items[1..]);
    }
  }

  lemma {:induction false} IdealPacked(d: Devices, payloads: seq<Payload>)
    requires PadReady(d).Ok?
    ensures IdealEach(d, PackedItems(payloads)) == Outcome(d, ReportMessages(payloads), [])
    decreases |payloads|
  {
    if payloads != [] {
      assert PackedItems(payloads)[1..] == PackedItems(payloads[1..]);
      InputMessageIsSerialization(HID_ID_GAMEPAD, payloads[0]);
      IdealPacked(d, payloads[1..]);
      assert ReportMessages(payloads) == [UhidInput(HID_ID_GAMEPAD, 15, payloads[0])] + ReportMessages(payloads[1..]);
    }
  }

  lemma {:induction false} UncheckedIsPacked(d: Devices, frames: seq<PadFrame>)
    ensures IdealEach(d, UncheckedItems(frames)) == IdealEach(d, PackedItems(PackAll(frames)))
    decreases |frames|
  {
    if frames != [] {
      var packed := PackedItems(PackAll(frames));
      assert UncheckedItems(frames)[1..] == UncheckedItems(frames[1..]);
      assert packed[1..] == PackedItems(PackAll(frames[1..]));
      assert Ideal(d, PadUnchecked(frames[0])) == Ideal(d, PadPacked(Pack(frames[0])));
      assert Ideal(d, PadUnchecked(frames[0])).dev == d;
      UncheckedIsPacked(d, frames[1..]);
    }
  }

  /** The first error of an outcome is what a batch call returns. */
  function FirstError(errors: seq<Error>): seq<Error> {
    if errors == [] then [] else [errors[0]]
  }

  /** A deduplicated batch of any length is its frames one at a time: same devices, same stream,
      same error, and the count of reports produced. */
  lemma FrameBatchDoes(e: C.Env, s: Session, frames: seq<PadFrame>)
    requires C.Reliable(e) && s.writer.Valid()
    ensures var (s', r) := SetFrameRawBatch(e, s, frames);
            var o := IdealEach(s.dev, DedupedItems(frames));
            && Did(s, s', o) && AsErrors(r) == FirstError(o.errors)
            && (r.Ok? ==> r.value == |o.msgs|)
  {
    hide DedupeFrom, SerializeAll;
    SerializeAllNone();
    var items := DedupedItems(frames);
    if frames == [] {
    } else if PadReady(s.dev).Err? {
      IdealNotReady(s.dev, items);
    } else {
      var slot := PadReady(s.dev).value.slot;
      var reports := Reports(slot, frames).1;
      DedupeAppendsReports(e, s.writer, slot, [], 0, frames);
      IdealDeduped(s.dev, frames);
      ReportMessagesBytes(reports);
      assert [] + reports == reports;
      SerializedReports(reports);
    }
  }

  lemma {:induction false} UntilErrorIsEach(d: Devices, items: seq<Item>)
    requires IdealEach(d, items).errors == []
    ensures IdealUntilError(d, items) == IdealEach(d, items)
    decreases |items|
  {
    hide Ideal;
    if items != [] {
      UntilErrorIsEach(Ideal(d, items[0]).dev, items[1..]);
    }
  }

  /** For every frame sequence across the 32-frame staging buffer, the deduplicated batch and the
      frames set one by one end with the same devices, the same stream and the same result; the
      batch also counts the frames that produced a report. */
  lemma FrameBatchIsOneAtATime(e: C.Env, s: Session, frames: seq<PadFrame>)
    requires C.Reliable(e) && s.writer.Valid()
    ensures var (s1, r1) := SetFrameRawBatch(e, s, frames);
            var (s2, r2) := RunItems(e, s, DedupedItems(frames));
            && s1.dev == s2.dev && s1.writer.Stream() == s2.writer.Stream()
            && AsErrors(r1) == AsErrors(r2)
            && (r1.Ok? ==> r1.value == |IdealEach(s.dev, DedupedItems(frames)).msgs|)
  {
    hide SetFrameRawBatch, RunItems, Ideal, SerializeAll;
    var items := DedupedItems(frames);
    FrameBatchDoes(e, s, frames);
    RunItemsDoes(e, s, items);
    if frames != [] && PadReady(s.dev).Err? {
      IdealNotReady(s.dev, items);
      NotReadyFails(s.dev, frames[0]);
    } else {
      if frames != [] { IdealDeduped(s.dev, frames); }
      UntilErrorIsEach(s.dev, items);
    }
  }

  lemma NotReadyFails(d: Devices, f: PadFrame)
    requires PadReady(d).Err?
    ensures Ideal(d, PadDeduped(f)) == Outcome(d, [], [PadReady(d).error])
  {
  }

  lemma SerializedReports(reports: seq<Payload>)
    ensures SerializeAll(ReportMessages(reports)) == Concat(InputMessages(HID_ID_GAMEPAD, reports))
  {
    ReportMessagesBytes(reports);
  }

  lemma PackedBatchDoes(e: C.Env, s: Session, payloads: seq<Payload>)
    requires C.Reliable(e) && s.writer.Valid()
    ensures var (s', r) := SetPackedBatch(e, s, payloads);
            var o := IdealEach(s.dev, PackedItems(payloads));
            Did(s, s', o) && AsErrors(r) == FirstError(o.errors) && (r.Ok? ==> r.value == |payloads|)
  {
    hide C.PushBatch, SerializeAll;
    SerializeAllNone();
    if payloads == [] {
    } else if PadReady(s.dev).Err? {
      IdealNotReady(s.dev, PackedItems(payloads));
    } else {
      BatchAppends(e, s.writer, payloads);
      IdealPacked(s.dev, payloads);
      SerializedReports(payloads);
    }
  }

  lemma UncheckedBatchDoes(e: C.Env, s: Session, frames: seq<PadFrame>)
    requires C.Reliable(e) && s.writer.Valid()
    ensures var (s', r) := SetFrameRawBatchUnchecked(e, s, frames);
            var o := IdealEach(s.dev, UncheckedItems(frames));
            Did(s, s', o) && AsErrors(r) == FirstError(o.errors) && (r.Ok? ==> r.value == |frames|)
  {
    PackedBatchDoes(e, s, PackAll(frames));
    UncheckedIsPacked(s.dev, frames);
  }

  // Opening and closing ------------------------------------------------------------------

  function Creates(q: OpenRequest): seq<Msg> {
    (if q.kbd then [CreateKeyboard(q)] else [])
    + (if q.mouse then [CreateMouse(q)] else [])
    + (if q.pad then [CreateGamepad(q)] else [])
  }

  function Opened(q: OpenRequest): Devices {
    Devices(if q.kbd then Some(Kbd({})) else None, q.mouse,
            if q.pad then Some(Pad(FRESH_SLOT, true)) else None, false, 1080, 1920)
  }

  /** What closing sends: one UHID_DESTROY per open device, unless its slot is already freed. */
  function Destroys(d: Devices): seq<Msg> {
    if d.closed then []
    else
      (if d.kbd.Some? then [UhidDestroy(HID_ID_KEYBOARD)] else [])
      + (if d.mouse then [UhidDestroy(HID_ID_MOUSE)] else [])
      + (if d.pad.Some? && d.pad.value.bound then [UhidDestroy(HID_ID_GAMEPAD)] else [])
  }

  function Closed(d: Devices): Devices {
    if d.closed then d else d.(pad := None, closed := true)
  }

  lemma StepDoes(e: C.Env, s: Session, m: Msg, wanted: bool, d: Devices)
    requires C.Reliable(e) && s.writer.Valid() && Serialize(m).Ok?
    ensures var (s', r) := if wanted then Send(e, s, m) else Unit(s);
            r == Ok(()) && s'.dev == s.dev && Did(s, s'.(dev := d), Outcome(d, if wanted then [m] else [], []))
  {
    SerializeAllNone();
    SendDoes(e, s, m);
  }

  lemma CreatesSerialize(q: OpenRequest)
    ensures Serialize(CreateKeyboard(q)).Ok? && Serialize(CreateMouse(q)).Ok? && Serialize(CreateGamepad(q)).Ok?
  {
  }

  lemma OpenDoes(e: C.Env, q: OpenRequest)
    requires C.Reliable(e)
    ensures var (s, r) := Open(e, q);
            r == Ok(()) && s.dev == Opened(q) && s.writer.Valid() && s.writer.Stream() == SerializeAll(Creates(q))
  {
    hide Send, SerializeAll, Serialize, CreateKeyboard, CreateMouse, CreateGamepad, DropSession;
    CreatesSerialize(q);
    var s0 := Session(NO_DEVICES, OpenWriter(q));
    var m1 := if q.kbd then [CreateKeyboard(q)] else [];
    var m2 := if q.mouse then [CreateMouse(q)] else [];
    var m3 := if q.pad then [CreateGamepad(q)] else [];
    var s1 := OpenKeyboard(e, q, s0).0;
    StepDoes(e, s0, CreateKeyboard(q), q.kbd, s1.dev);
    var s2 := OpenMouse(e, q, s1).0;
    StepDoes(e, s1, CreateMouse(q), q.mouse, s2.dev);
    DidThenDid(s0, s1, s2, Outcome(s1.dev, m1, []), Outcome(s2.dev, m2, []), Outcome(s2.dev, m1 + m2, []));
    var s3 := OpenGamepad(e, q, s2).0;
    StepDoes(e, s2, CreateGamepad(q), q.pad, s3.dev);
    DidThenDid(s0, s2, s3, Outcome(s2.dev, m1 + m2, []), Outcome(s3.dev, m3, []), Outcome(s3.dev, Creates(q), []));
    assert s0.writer.Stream() == [];
    assert [] + SerializeAll(Creates(q)) == SerializeAll(Creates(q));
  }

  lemma CloseGamepadDoes(e: C.Env, s: Session)
    requires C.Reliable(e) && s.writer.Valid()
    ensures var (s', r) := CloseGamepad(e, s);
            var bound := s.dev.pad.Some? && s.dev.pad.value.bound;
            && r == Ok(())
            && Did(s, s', Outcome(s.dev.(pad := None), if bound then [UhidDestroy(HID_ID_GAMEPAD)] else [], []))
  {
    hide Send, SerializeAll;
    var bound := s.dev.pad.Some? && s.dev.pad.value.bound;
    var freed := if bound then s.dev.(pad := Some(s.dev.pad.value.(bound := false))) else s.dev;
    StepDoes(e, s.(dev := freed), UhidDestroy(HID_ID_GAMEPAD), bound, s.dev.(pad := None));
    SerializeAllNone();
  }

  lemma CloseDoes(e: C.Env, s: Session)
    requires C.Reliable(e) && s.writer.Valid()
    ensures var (s', r) := CloseAll(e, s);
            r == Ok(()) && Did(s, s', Outcome(Closed(s.dev), Destroys(s.dev), []))
  {
    hide Send, SerializeAll, Serialize, CloseGamepad;
    SerializeAllNone();
    if !s.dev.closed {
      var m1 := if s.dev.kbd.Some? then [UhidDestroy(HID_ID_KEYBOARD)] else [];
      var m2 := if s.dev.mouse then [UhidDestroy(HID_ID_MOUSE)] else [];
      DestroysSerialize();
      var (s1, r1) := CloseKeyboard(e, s);
      StepDoes(e, s, UhidDestroy(HID_ID_KEYBOARD), s.dev.kbd.Some?, s.dev);
      var (s2, r2) := CloseMouse(e, s1);
      StepDoes(e, s1, UhidDestroy(HID_ID_MOUSE), s.dev.mouse, s.dev);
      DidThenDid(s, s1, s2, Outcome(s.dev, m1, []), Outcome(s.dev, m2, []), Outcome(s.dev, m1 + m2, []));
      CloseGamepadDoes(e, s2);
      var s3 := CloseGamepad(e, s2).0;
      var bound := s.dev.pad.Some? && s.dev.pad.value.bound;
      var m3 := if bound then [UhidDestroy(HID_ID_GAMEPAD)] else [];
      DidThenDid(s, s2, s3, Outcome(s.dev, m1 + m2, []), Outcome(s.dev.(pad := None), m3, []),
                 Outcome(s.dev.(pad := None), m1 + m2 + m3, []));
    }
  }

  lemma DestroysSerialize()
    ensures forall id: u16 :: Serialize(UhidDestroy(id)).Ok?
  {
  }

  /** What an opened session declares: each requested device once, keyboard, mouse, gamepad, under its own
      id and with its own descriptor; only the gamepad has a name and a vendor. */
  lemma DevicesDeclareThemselves(q: OpenRequest)
    returns (k: nat, m: nat, g: nat)
    ensures |Creates(q)| == (if q.kbd then 1 else 0) + (if q.mouse then 1 else 0) + (if q.pad then 1 else 0)
    ensures q.kbd ==> k < |Creates(q)| && Creates(q)[k] == UhidCreate(1, 0, 0, [], q.kbdDesc)
    ensures q.mouse ==> m < |Creates(q)| && Creates(q)[m] == UhidCreate(2, 0, 0, [], q.mouseDesc)
    ensures q.pad ==> g < |Creates(q)| && Creates(q)[g] == UhidCreate(3, 0x045e, 0x028e, q.padName, q.padDesc)
    ensures (q.kbd && q.mouse ==> k < m) && (q.kbd && q.pad ==> k < g) && (q.mouse && q.pad ==> m < g)
  {
    k := 0;
    m := if q.kbd then 1 else 0;
    g := m + (if q.mouse then 1 else 0);
  }

  /** A session coalesces exactly if it is asked to and has a window, and then with a limit of at least
      one byte; otherwise it writes directly. It starts with an empty buffer and an untouched wire. */
  lemma OpenModes(q: OpenRequest)
    ensures var w := OpenWriter(q);
            && (w.direct <==> !q.coalesce || q.windowIsZero)
            && (!w.direct ==> w.hardLimit >= 1 && (q.hardLimit >= 1 ==> w.hardLimit == q.hardLimit)
                              && (q.hardLimit == 0 ==> w.hardLimit == 1))
            && w.Valid() && w.Stream() == [] && w.calls == 0
  {
  }

  /** On a reliable transport dropping a session leaves nothing behind: whatever was buffered is on the
      wire, followed by the destroys of the devices that were still open. */
  lemma DropDelivers(e: C.Env, s: Session)
    requires C.Reliable(e) && s.writer.Valid()
    ensures var s' := DropSession(e, s);
            && s'.dev.closed && s'.writer.pending == []
            && s'.writer.wire == s.writer.Stream() + SerializeAll(Destroys(s.dev))
  {
    hide CloseAll, SerializeAll, Destroys, C.FlushNow;
    SerializeAllNone();
    var s1 := if s.dev.closed then s else CloseAll(e, s).0;
    CloseDoes(e, s);
    ClosedSendsNothing(s.dev);
    assert s.writer.Stream() + [] == s.writer.Stream();
    L.FlushNowGrows(e, s1.writer);
    ReliableFlush(e, s1.writer);
  }

  lemma ReliableFlush(e: C.Env, w: C.Writer)
    requires C.Reliable(e)
    ensures C.FlushNow(e, w).1.Ok?
  {
  }

  lemma ClosedSendsNothing(d: Devices)
    ensures (d.closed ==> Destroys(d) == []) && Closed(d).closed
  {
  }
}
