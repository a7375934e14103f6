/** Calls after a close on a transport that may fail: what they leave on the stream, and when a
    device receives an input behind its own destroy (src/session.rs). */
module AfterClose {
  import opened Bytes
  import opened Frames
  import opened Messages
  import opened Sessions
  import opened SessionLaws
  import opened Lifecycle
  import opened SessionFaults
  import opened Tapes
  import C = Coalesce
  import L = CoalesceLaws

  // The tape of a run of calls ---------------------------------------------------------------

  /** A series of messages, up to the first that fails. */
  function SendEachTape(e: C.Env, w: C.Writer, ms: seq<Msg>, tape: Tape): Tape
    decreases |ms|
  {
    if ms == [] then tape
    else
      var (w1, r) := C.Push(e, w, ms[0]);
      var tape1 := Record(e, w, ms[0], tape);
      if r.Err? then tape1 else SendEachTape(e, w1, ms[1..], tape1)
  }

  function Make(e: C.Env, s: Session, c: Call): (Session, Result<()>) {
    match c
    case CloseCall => CloseAll(e, s)
    case Input(it) => Perform(e, s, it)
  }

  function MakeTape(e: C.Env, s: Session, c: Call, tape: Tape): Tape {
    match c
    case CloseCall => if s.dev.closed then tape else SendEachTape(e, s.writer, Destroys(s.dev), tape)
    case Input(it) =>
      match Plan(s.dev, it).1
      case Ok(Some(m)) => Record(e, s.writer, m, tape)
      case _ => tape
  }

  /** Everything that the calls leave on the stream. */
  function CallsTape(e: C.Env, s: Session, calls: seq<Call>): Tape
    decreases |calls|
  {
    if calls == [] then Blank()
    else
      var first := calls[..|calls| - 1];
      MakeTape(e, RunCalls(e, s, first), calls[|calls| - 1], CallsTape(e, s, first))
  }

  lemma {:induction false} RunCallsSnoc(e: C.Env, s: Session, calls: seq<Call>, c: Call)
    ensures RunCalls(e, s, calls + [c]) == Make(e, RunCalls(e, s, calls), c).0
    decreases |calls|
  {
    hide CloseAll, Perform;
    var all := calls + [c];
    if calls == [] {
      assert all[1..] == [];
    } else {
      assert all[1..] == calls[1..] + [c];
      RunCallsSnoc(e, Make(e, s, calls[0]).0, calls[1..], c);
    }
  }

  lemma {:induction false} SendEachPlays(e: C.Env, start: C.Writer, w: C.Writer, ms: seq<Msg>, tape: Tape)
    requires Plays(start, w, tape)
    ensures Plays(start, SendEach(e, w, ms).0, SendEachTape(e, w, ms, tape))
    decreases |ms|
  {
    hide Plays, Record, C.Push;
    if ms != [] {
      RecordPlays(e, start, w, ms[0], tape);
      var (w1, r) := C.Push(e, w, ms[0]);
      if r.Ok? {
        SendEachPlays(e, start, w1, ms[1..], Record(e, w, ms[0], tape));
      }
    }
  }

  lemma MakePlays(e: C.Env, start: C.Writer, s: Session, c: Call, tape: Tape)
    requires Plays(start, s.writer, tape)
    ensures Plays(start, Make(e, s, c).0.writer, MakeTape(e, s, c, tape))
  {
    hide Record, C.Push, SendEach, SendEachTape, Plan, CloseAll, Destroys;
    if c.CloseCall? {
      if !s.dev.closed {
        CloseIsDestroys(e, s);
        SendEachPlays(e, start, s.writer, Destroys(s.dev), tape);
      } else {
        ClosedIsClosed(e, s);
      }
    } else {
      var p := Plan(s.dev, c.item).1;
      if p.Ok? && p.value.Some? {
        RecordPlays(e, start, s.writer, p.value.value, tape);
      }
    }
  }

  /** On every transport the calls leave exactly their tape on the session's stream. */
  lemma {:induction false} CallsPlay(e: C.Env, s: Session, calls: seq<Call>)
    requires s.writer.Valid()
    ensures Plays(s.writer, RunCalls(e, s, calls).writer, CallsTape(e, s, calls))
    decreases |calls|
  {
    hide Plays, Make, MakeTape;
    if calls == [] {
      BlankPlays(s.writer);
    } else {
      var first, last := calls[..|calls| - 1], calls[|calls| - 1];
      CallsPlay(e, s, first);
      MakePlays(e, s.writer, RunCalls(e, s, first), last, CallsTape(e, s, first));
      RunCallsSnoc(e, s, first, last);
      assert calls == first + [last];
    }
  }

  // What a message list says of one device -----------------------------------------------------

  predicate IsInputOf(m: Msg, id: u16) {
    m.UhidInput? && m.id == id
  }

  lemma BehindAppend(a: seq<Msg>, b: seq<Msg>, id: u16)
    ensures InputBehindDestroy(a + b, id) <==>
            InputBehindDestroy(a, id) || InputBehindDestroy(b, id) || (UhidDestroy(id) in a && HasInput(b, id))
  {
    var ab := a + b;
    if i, j :| 0 <= i < j < |a| && a[i] == UhidDestroy(id) && a[j].UhidInput? && a[j].id == id {
      assert ab[i] == UhidDestroy(id) && ab[j].UhidInput? && ab[j].id == id;
    }
    if i, j :| 0 <= i < j < |b| && b[i] == UhidDestroy(id) && b[j].UhidInput? && b[j].id == id {
      assert ab[|a| + i] == UhidDestroy(id) && ab[|a| + j].UhidInput? && ab[|a| + j].id == id;
    }
    if UhidDestroy(id) in a && HasInput(b, id) {
      var i :| 0 <= i < |a| && a[i] == UhidDestroy(id);
      var j :| 0 <= j < |b| && b[j].UhidInput? && b[j].id == id;
      assert ab[i] == UhidDestroy(id) && ab[|a| + j].UhidInput? && ab[|a| + j].id == id;
    }
    if i, j :| 0 <= i < j < |ab| && ab[i] == UhidDestroy(id) && ab[j].UhidInput? && ab[j].id == id {
      if j >= |a| {
        assert b[j - |a|].UhidInput? && b[j - |a|].id == id;
        assert i < |a| ==> a[i] == UhidDestroy(id);
        assert i >= |a| ==> b[i - |a|] == UhidDestroy(id);
      } else {
        assert a[i] == UhidDestroy(id) && a[j].UhidInput? && a[j].id == id;
      }
    }
  }

  lemma OneMessage(m: Msg, id: u16)
    ensures HasInput([m], id) <==> IsInputOf(m, id)
    ensures !InputBehindDestroy([m], id)
  {
    assert [m][0] == m;
  }

  lemma NoDestroysNoneBehind(ms: seq<Msg>, id: u16)
    requires forall m :: m in ms ==> !m.UhidDestroy?
    ensures !InputBehindDestroy(ms, id) && UhidDestroy(id) !in ms
  {
  }

  /** The buffer holds no destroy, and an input of a destroyed device only if one is already behind
      its destroy. */
  predicate HeldIsHarmless(tape: Tape, id: u16) {
    && (forall m :: m in tape.held.msgs ==> !m.UhidDestroy?)
    && (UhidDestroy(id) in Heard(tape.entries) && HasInput(tape.held.msgs, id) ==>
          InputBehindDestroy(Heard(tape.entries), id))
  }

  /** A message that is no destroy, accepted or not, with or without a torn flush. */
  lemma ExtendByInput(tape: Tape, m: Msg, ok: bool, sent: bool, torn: bool, drained: bool, id: u16)
    requires HeldIsHarmless(tape, id) && !m.UhidDestroy?
    ensures var tape' := Extend(tape, m, ok, sent, torn, drained);
            var was := Heard(tape.entries);
            && HeldIsHarmless(tape', id)
            && (UhidDestroy(id) in Heard(tape'.entries) <==> UhidDestroy(id) in was)
            && (InputBehindDestroy(Heard(tape'.entries), id) <==>
                  InputBehindDestroy(was, id) || (UhidDestroy(id) in was && sent && IsInputOf(m, id)))
  {
    hide HasInput, InputBehindDestroy;
    var now := if sent then [m] else [];
    var was, held := Heard(tape.entries), tape.held.msgs + now;
    HeardExtend(tape, m, ok, sent, torn, drained);
    OneMessage(m, id);
    NothingSays(id);
    assert forall x :: x in held ==> !x.UhidDestroy?;
    HasInputSplit(tape.held.msgs, now, id);
    NoDestroysNoneBehind(now, id);
    NoDestroysNoneBehind(held, id);
    BehindAppend(was, now, id);
    BehindAppend(was + now, if torn then held else [], id);
    var tape' := Extend(tape, m, ok, sent, torn, drained);
    assert tape'.held.msgs == if drained then [] else held by {
      assert tape.held.msgs + [] == tape.held.msgs;
    }
    assert Heard(tape'.entries) == was + now + (if torn then held else []);
  }

  lemma NothingSays(id: u16)
    ensures !HasInput([], id) && !InputBehindDestroy([], id)
  {
  }

  /** A destroy: accepted with nothing left buffered and no torn flush, or not accepted. */
  lemma ExtendByDestroy(tape: Tape, x: u16, ok: bool, sent: bool, torn: bool, drained: bool, id: u16)
    requires HeldIsHarmless(tape, id) && (sent ==> drained && !torn)
    ensures var tape' := Extend(tape, UhidDestroy(x), ok, sent, torn, drained);
            var was := Heard(tape.entries);
            && HeldIsHarmless(tape', id)
            && (UhidDestroy(id) in Heard(tape'.entries) <==> UhidDestroy(id) in was || (sent && x == id))
            && (InputBehindDestroy(Heard(tape'.entries), id) <==> InputBehindDestroy(was, id))
  {
    hide HasInput, InputBehindDestroy;
    var m := UhidDestroy(x);
    var now := if sent then [m] else [];
    var was, again := Heard(tape.entries), if torn then tape.held.msgs else [];
    HeardExtend(tape, m, ok, sent, torn, drained);
    OneMessage(m, id);
    NothingSays(id);
    NoDestroysNoneBehind(tape.held.msgs, id);
    BehindAppend(was, now, id);
    BehindAppend(was, again, id);
    assert was + [] == was && was + now + [] == was + now && tape.held.msgs + [] == tape.held.msgs;
  }

  // Steps --------------------------------------------------------------------------------------

  /** One more destroy: it lands unless its drain or its write fails, and the next is sent if its
      flush succeeds too. */
  lemma LandedStep(e: C.Env, w: C.Writer, m: Msg, n: nat)
    requires w.Valid() && m.Critical() && Serialize(m).Ok?
    ensures var (w1, r) := C.Push(e, w, m);
            var sent := L.AcceptedMessage(e, w, m) == 1;
            && w1.Valid()
            && Landed(e, w, n + 1) == (if !sent then 0 else if r.Err? then 1 else 1 + Landed(e, w1, n))
            && (r.Ok? ==> sent)
  {
    hide Serialize;
    L.EncodingOk(m);
    L.CountingDoesNotMatter(e, w, 1);
  }

  lemma RecordDestroy(e: C.Env, w: C.Writer, x: u16, tape: Tape, id: u16)
    requires w.Valid() && HeldIsHarmless(tape, id)
    ensures var tape' := Record(e, w, UhidDestroy(x), tape);
            var was := Heard(tape.entries);
            && HeldIsHarmless(tape', id)
            && (UhidDestroy(id) in Heard(tape'.entries) <==>
                  UhidDestroy(id) in was || (L.AcceptedMessage(e, w, UhidDestroy(x)) == 1 && x == id))
            && (InputBehindDestroy(Heard(tape'.entries), id) <==> InputBehindDestroy(was, id))
  {
    hide C.Push, L.AcceptedMessage, L.MessageFlushes, L.AnyTears, Extend, HeldIsHarmless, InputBehindDestroy;
    var m := UhidDestroy(x);
    var (w', r) := C.Push(e, w, m);
    PushPending(e, w, m);
    ExtendByDestroy(tape, x, r.Ok?, L.AcceptedMessage(e, w, m) == 1, L.AnyTears(e, L.MessageFlushes(e, w, m)),
                    w'.pending == [], id);
  }

  predicate AllDestroys(ms: seq<Msg>) {
    forall i :: 0 <= i < |ms| ==> ms[i].UhidDestroy?
  }

  lemma {:induction false} SendEachDestroys(e: C.Env, w: C.Writer, ms: seq<Msg>, tape: Tape, id: u16)
    requires w.Valid() && AllDestroys(ms) && HeldIsHarmless(tape, id)
    ensures var tape' := SendEachTape(e, w, ms, tape);
            var was := Heard(tape.entries);
            && HeldIsHarmless(tape', id)
            && (UhidDestroy(id) in Heard(tape'.entries) <==>
                  UhidDestroy(id) in was || UhidDestroy(id) in ms[..Landed(e, w, |ms|)])
            && (InputBehindDestroy(Heard(tape'.entries), id) <==> InputBehindDestroy(was, id))
    decreases |ms|
  {
    hide C.Push, L.AcceptedMessage, Record, Landed, HeldIsHarmless, InputBehindDestroy, Heard, Serialize;
    if ms == [] {
    } else {
      var (w1, r) := C.Push(e, w, ms[0]);
      var tape1 := Record(e, w, ms[0], tape);
      DestroysSerialize();
      DestroySerializes(ms[0]);
      RecordDestroy(e, w, ms[0].id, tape, id);
      LandedStep(e, w, ms[0], |ms| - 1);
      var n := Landed(e, w, |ms|);
      if r.Ok? {
        SendEachDestroys(e, w1, ms[1..], tape1, id);
        assert ms[..n] == [ms[0]] + ms[1..][..n - 1];
      } else {
        assert ms[..1] == [ms[0]] && ms[..0] == [];
      }
    }
  }

  lemma DestroySerializes(m: Msg)
    requires m.UhidDestroy?
    ensures Serialize(m).Ok?
  {
  }

  // The condition ------------------------------------------------------------------------------

  /** Closing now puts the device's destroy on the stream: the buffer drains, and every call up to
      the destroy's write succeeds. */
  predicate DestroyLands(e: C.Env, s: Session, id: u16) {
    !s.dev.closed && UhidDestroy(id) in Destroys(s.dev)[..Landed(e, s.writer, |Destroys(s.dev)|)]
  }

  /** The call has an input of the device to send. */
  predicate Sends(d: Devices, it: Item, id: u16) {
    var p := Plan(d, it).1;
    p.Ok? && p.value.Some? && IsInputOf(p.value.value, id)
  }

  /** The only way for a serializable input not to join the stream: a direct writer's failed write. */
  predicate WriteIsLost(e: C.Env, w: C.Writer) {
    w.direct && !e.writeOk(w.calls)
  }

  /** Call `i` is a close that lands the device's destroy, and call `j` behind it puts an input of
      the device on the stream. */
  predicate SentBehind(e: C.Env, s: Session, calls: seq<Call>, id: u16, i: nat, j: nat) {
    && i < j < |calls| && calls[i] == CloseCall && calls[j].Input?
    && DestroyLands(e, RunCalls(e, s, calls[..i]), id)
    && (var at := RunCalls(e, s, calls[..j]);
        Sends(at.dev, calls[j].item, id) && !WriteIsLost(e, at.writer))
  }

  predicate LandedBefore(e: C.Env, s: Session, calls: seq<Call>, id: u16) {
    exists i :: 0 <= i < |calls| && calls[i] == CloseCall && DestroyLands(e, RunCalls(e, s, calls[..i]), id)
  }

  ghost predicate EverBehind(e: C.Env, s: Session, calls: seq<Call>, id: u16) {
    exists i: nat, j: nat :: SentBehind(e, s, calls, id, i, j)
  }

  lemma LandedBeforeSnoc(e: C.Env, s: Session, calls: seq<Call>, c: Call, id: u16)
    ensures LandedBefore(e, s, calls + [c], id) <==>
            LandedBefore(e, s, calls, id) || (c == CloseCall && DestroyLands(e, RunCalls(e, s, calls), id))
  {
    hide DestroyLands, RunCalls;
    var all := calls + [c];
    assert all[..|calls|] == calls;
    assert forall i :: 0 <= i < |calls| ==> all[..i] == calls[..i] && all[i] == calls[i];
    if i :| 0 <= i < |calls| && calls[i] == CloseCall && DestroyLands(e, RunCalls(e, s, calls[..i]), id) {
      assert all[i] == CloseCall && DestroyLands(e, RunCalls(e, s, all[..i]), id);
    }
    if c == CloseCall && DestroyLands(e, RunCalls(e, s, calls), id) {
      assert all[|calls|] == CloseCall;
    }
  }

  lemma EverBehindSnoc(e: C.Env, s: Session, calls: seq<Call>, c: Call, id: u16)
    ensures EverBehind(e, s, calls + [c], id) <==>
            || EverBehind(e, s, calls, id)
            || (LandedBefore(e, s, calls, id) && c.Input?
                && Sends(RunCalls(e, s, calls).dev, c.item, id) && !WriteIsLost(e, RunCalls(e, s, calls).writer))
  {
    hide DestroyLands, RunCalls, Sends, WriteIsLost;
    var all := calls + [c];
    assert all[..|calls|] == calls && all[|calls|] == c;
    assert forall i :: 0 <= i < |calls| ==> all[..i] == calls[..i] && all[i] == calls[i];
    if i: nat, j: nat :| SentBehind(e, s, calls, id, i, j) {
      assert SentBehind(e, s, all, id, i, j);
    }
    if i: nat, j: nat :| SentBehind(e, s, all, id, i, j) {
      if j < |calls| {
        assert SentBehind(e, s, calls, id, i, j);
      }
    }
    if LandedBefore(e, s, calls, id) && c.Input? && Sends(RunCalls(e, s, calls).dev, c.item, id)
       && !WriteIsLost(e, RunCalls(e, s, calls).writer) {
      var i :| 0 <= i < |calls| && calls[i] == CloseCall && DestroyLands(e, RunCalls(e, s, calls[..i]), id);
      assert SentBehind(e, s, all, id, i, |calls|);
    }
  }

  lemma PlanIsNoDestroy(d: Devices, it: Item)
    ensures var p := Plan(d, it).1;
            p.Ok? && p.value.Some? ==>
              && !p.value.value.UhidDestroy? && !p.value.value.Critical()
              && (p.value.value.UhidInput? ==> Serialize(p.value.value).Ok?)
  {
    ReportLengths();
    hide FullState, Pack, KeyReport, MouseReport, PressKey, Serialize;
    var p := Plan(d, it).1;
    if p.Ok? && p.value.Some? && p.value.value.UhidInput? {
      if it.PadDeduped? {
        var payload: Payload := FullState(d.pad.value.slot, it.frame).1.value;
        assert p.value.value == UhidInput(HID_ID_GAMEPAD, 15, payload);
      }
      InputSerializes(p.value.value);
    }
  }

  lemma ReportLengths()
    ensures forall held: set<byte>, mods: byte :: |KeyReport(held, mods)| == 8
    ensures forall dx: i32, dy: i32, buttons: byte :: |MouseReport(dx, dy, buttons)| == 5
  {
  }

  lemma InputSerializes(m: Msg)
    requires m.UhidInput? && m.size <= HID_MAX_SIZE && m.size <= |m.data|
    ensures Serialize(m).Ok?
  {
  }

  lemma RecordInput(e: C.Env, s: Session, it: Item, tape: Tape, id: u16)
    requires s.writer.Valid() && HeldIsHarmless(tape, id)
    ensures var tape' := MakeTape(e, s, Input(it), tape);
            var was := Heard(tape.entries);
            && HeldIsHarmless(tape', id)
            && (UhidDestroy(id) in Heard(tape'.entries) <==> UhidDestroy(id) in was)
            && (InputBehindDestroy(Heard(tape'.entries), id) <==>
                  || InputBehindDestroy(was, id)
                  || (UhidDestroy(id) in was && Sends(s.dev, it, id) && !WriteIsLost(e, s.writer)))
  {
    hide C.Push, L.MessageFlushes, L.AnyTears, Extend, HeldIsHarmless, InputBehindDestroy, Plan, Serialize, Heard;
    PlanIsNoDestroy(s.dev, it);
    var p := Plan(s.dev, it).1;
    if p.Ok? && p.value.Some? {
      var m := p.value.value;
      var (w', r) := C.Push(e, s.writer, m);
      var sent := L.AcceptedMessage(e, s.writer, m) == 1;
      ExtendByInput(tape, m, r.Ok?, sent, L.AnyTears(e, L.MessageFlushes(e, s.writer, m)), w'.pending == [], id);
      assert m.UhidInput? ==> (sent <==> !WriteIsLost(e, s.writer));
    }
  }

  lemma RecordClose(e: C.Env, s: Session, tape: Tape, id: u16)
    requires s.writer.Valid() && HeldIsHarmless(tape, id)
    ensures var tape' := MakeTape(e, s, CloseCall, tape);
            var was := Heard(tape.entries);
            && HeldIsHarmless(tape', id)
            && (UhidDestroy(id) in Heard(tape'.entries) <==> UhidDestroy(id) in was || DestroyLands(e, s, id))
            && (InputBehindDestroy(Heard(tape'.entries), id) <==> InputBehindDestroy(was, id))
  {
    hide SendEachTape, HeldIsHarmless, InputBehindDestroy, Heard, Landed;
    if !s.dev.closed {
      SendEachDestroys(e, s.writer, Destroys(s.dev), tape, id);
    }
  }

  lemma {:induction false} BehindOnTheTape(e: C.Env, s: Session, calls: seq<Call>, id: u16)
    requires s.writer.Valid()
    ensures var tape := CallsTape(e, s, calls);
            && HeldIsHarmless(tape, id)
            && (UhidDestroy(id) in Heard(tape.entries) <==> LandedBefore(e, s, calls, id))
            && (InputBehindDestroy(Heard(tape.entries), id) <==> EverBehind(e, s, calls, id))
    decreases |calls|
  {
    hide MakeTape, DestroyLands, Sends, WriteIsLost, RunCalls, InputBehindDestroy, HeldIsHarmless, LandedBefore,
         EverBehind, Heard, Plays;
    if calls == [] {
      NothingHappened(e, s, id);
    } else {
      var first, last := calls[..|calls| - 1], calls[|calls| - 1];
      var at, tape := RunCalls(e, s, first), CallsTape(e, s, first);
      assert calls == first + [last];
      BehindOnTheTape(e, s, first, id);
      LandedBeforeSnoc(e, s, first, last, id);
      EverBehindSnoc(e, s, first, last, id);
      ValidThroughout(e, s, first);
      if last.Input? {
        RecordInput(e, at, last.item, tape, id);
      } else {
        RecordClose(e, at, tape, id);
      }
    }
  }

  lemma ValidThroughout(e: C.Env, s: Session, calls: seq<Call>)
    requires s.writer.Valid()
    ensures RunCalls(e, s, calls).writer.Valid()
  {
    hide RunCalls, CallsTape;
    CallsPlay(e, s, calls);
  }

  lemma NothingHappened(e: C.Env, s: Session, id: u16)
    ensures HeldIsHarmless(Blank(), id) && UhidDestroy(id) !in Heard([]) && !InputBehindDestroy(Heard([]), id)
    ensures !LandedBefore(e, s, [], id) && !EverBehind(e, s, [], id)
  {
  }

  // Device by device ---------------------------------------------------------------------------

  /** Keyboard and mouse stay open in the session's eyes, even when it is closed. */
  predicate Kept(d: Devices, q: OpenRequest) {
    d.kbd.Some? == q.kbd && d.mouse == q.mouse
  }

  lemma KeptSends(q: OpenRequest, d: Devices, it: Item, id: u16)
    requires Kept(d, q)
    ensures id != HID_ID_GAMEPAD ==> (Sends(d, it, id) <==> Unguarded(q, it, id))
    ensures id == HID_ID_GAMEPAD && d.closed ==> !Sends(d, it, id)
  {
    hide FullState, Pack, KeyReport, MouseReport, PressKey;
  }

  lemma MakeKeeps(e: C.Env, q: OpenRequest, s: Session, c: Call)
    requires Kept(s.dev, q) && s.writer.Valid()
    ensures var (s', r) := Make(e, s, c);
            && Kept(s'.dev, q) && (s.dev.closed ==> s'.dev.closed)
            && (c == CloseCall && r.Ok? ==> s'.dev.closed)
  {
    hide Send, FullState, Pack, KeyReport, MouseReport, PressKey, CloseAll, C.Push, Serialize;
    if c == CloseCall {
      CloseKeeps(e, q, s);
    } else {
      PlanKeeps(q, s.dev, c.item);
      SendKeepsDevices(e, s.(dev := Plan(s.dev, c.item).0));
    }
  }

  lemma SendKeepsDevices(e: C.Env, s: Session)
    ensures forall m :: Send(e, s, m).0.dev == s.dev
  {
  }

  lemma PlanKeeps(q: OpenRequest, d: Devices, it: Item)
    requires Kept(d, q)
    ensures Kept(Plan(d, it).0, q) && Plan(d, it).0.closed == d.closed
  {
    hide FullState, Pack, KeyReport, MouseReport, PressKey;
  }

  lemma CloseKeeps(e: C.Env, q: OpenRequest, s: Session)
    requires Kept(s.dev, q) && s.writer.Valid()
    ensures var (s', r) := CloseAll(e, s);
            && Kept(s'.dev, q) && (s.dev.closed ==> s'.dev.closed) && (r.Ok? ==> s'.dev.closed)
  {
    hide Send, CloseAll, SendEach, Acked;
    if s.dev.closed {
      ClosedIsClosed(e, s);
    } else {
      CloseIsDestroys(e, s);
      OkIsClosed(e, s);
    }
  }

  lemma OkIsClosed(e: C.Env, s: Session)
    ensures CloseAll(e, s).1.Ok? ==> CloseAll(e, s).0.dev.closed
  {
    hide Send;
  }

  /** The devices after some calls, and after more of them. */
  lemma {:induction false} KeptThroughout(e: C.Env, q: OpenRequest, s: Session, calls: seq<Call>, i: nat, j: nat)
    requires Kept(s.dev, q) && s.writer.Valid() && i <= j <= |calls|
    ensures Kept(RunCalls(e, s, calls[..j]).dev, q)
    ensures RunCalls(e, s, calls[..i]).dev.closed ==> RunCalls(e, s, calls[..j]).dev.closed
    decreases j
  {
    hide RunCalls, Make, Kept;
    if j == 0 {
      assert calls[..0] == [];
      NoCalls(e, s);
    } else {
      assert calls[..j] == calls[..j - 1] + [calls[j - 1]];
      RunCallsSnoc(e, s, calls[..j - 1], calls[j - 1]);
      ValidThroughout(e, s, calls[..j - 1]);
      KeptThroughout(e, q, s, calls, if i < j then i else j - 1, j - 1);
      MakeKeeps(e, q, RunCalls(e, s, calls[..j - 1]), calls[j - 1]);
    }
  }

  lemma NoCalls(e: C.Env, s: Session)
    ensures RunCalls(e, s, []) == s
  {
  }

  /** Call `i` is a close that lands the device's destroy; call `j` behind it is accepted and is a key
      or mouse call of that device, or, for the gamepad, a call with a report to send after a close
      that failed although the gamepad's destroy had landed. */
  ghost predicate ReceivesBehind(
    e: C.Env, q: OpenRequest, s: Session, calls: seq<Call>, id: u16, i: nat, j: nat)
  {
    && i < j < |calls| && calls[i] == CloseCall && calls[j].Input?
    && (var closing, at := RunCalls(e, s, calls[..i]), RunCalls(e, s, calls[..j]);
        && DestroyLands(e, closing, id) && !WriteIsLost(e, at.writer)
        && if id == HID_ID_GAMEPAD then CloseAll(e, closing).1.Err? && Sends(at.dev, calls[j].item, id)
           else Unguarded(q, calls[j].item, id))
  }

  lemma SentIsReceived(e: C.Env, q: OpenRequest, s: Session, calls: seq<Call>, id: u16, i: nat, j: nat)
    requires s.writer.Valid() && Kept(s.dev, q)
    ensures SentBehind(e, s, calls, id, i, j) <==> ReceivesBehind(e, q, s, calls, id, i, j)
  {
    hide RunCalls, Sends, Unguarded, DestroyLands, WriteIsLost, Kept, CloseAll;
    if i < j < |calls| {
      KeptThroughout(e, q, s, calls, i + 1, j);
      KeptThroughout(e, q, s, calls, i, i);
      ValidThroughout(e, s, calls[..i]);
      assert calls[..i + 1] == calls[..i] + [calls[i]];
      RunCallsSnoc(e, s, calls[..i], calls[i]);
      MakeKeeps(e, q, RunCalls(e, s, calls[..i]), calls[i]);
      if calls[j].Input? {
        KeptSends(q, RunCalls(e, s, calls[..j]).dev, calls[j].item, id);
      }
    }
  }

  /** On every transport: the calls leave their tape on the stream, and in it a device receives an
      input behind its own destroy if and only if one of them is received behind a close that landed
      the destroy. Torn flushes that repeat inputs add no further case. */
  lemma InputBehindDestroyOnAnyTransportIff(
    e: C.Env, q: OpenRequest, s: Session, calls: seq<Call>, id: u16)
    requires s.writer.Valid() && Live(s.dev, q)
    ensures Plays(s.writer, RunCalls(e, s, calls).writer, CallsTape(e, s, calls))
    ensures InputBehindDestroy(Heard(CallsTape(e, s, calls).entries), id) <==>
            exists i: nat, j: nat :: ReceivesBehind(e, q, s, calls, id, i, j)
  {
    hide Plays, RunCalls, CallsTape, Heard, InputBehindDestroy, SentBehind, ReceivesBehind;
    CallsPlay(e, s, calls);
    BehindOnTheTape(e, s, calls, id);
    if i: nat, j: nat :| SentBehind(e, s, calls, id, i, j) {
      SentIsReceived(e, q, s, calls, id, i, j);
      assert ReceivesBehind(e, q, s, calls, id, i, j);
    }
    if i: nat, j: nat :| ReceivesBehind(e, q, s, calls, id, i, j) {
      SentIsReceived(e, q, s, calls, id, i, j);
      assert SentBehind(e, s, calls, id, i, j);
    }
  }

  /** The gamepad too: its destroy lands, the flush fails, the session stays open, and the next report
      follows the destroy. */
  lemma ReportBehindTheGamepadsDestroy(e: C.Env, q: OpenRequest, s: Session, p: Payload)
    requires OnlyPad(q) && Live(s.dev, q) && s.writer.direct && s.writer.pending == []
    requires var c := s.writer.calls; e.writeOk(c) && !e.flushOk(c + 1) && e.writeOk(c + 2) && e.flushOk(c + 3)
    ensures var (s1, r1) := CloseAll(e, s);
            var (s2, r2) := Perform(e, s1, PadPacked(p));
            && r1 == Err(FlushFailed(s.writer.calls + 1)) && r2 == Ok(())
            && s2.writer.wire == s.writer.wire + Encoding(UhidDestroy(HID_ID_GAMEPAD)) + InputMessage(HID_ID_GAMEPAD, p)
  {
    hide Serialize, Encoding, InputMessage;
    DestroysSerialize();
    L.EncodingOk(UhidDestroy(HID_ID_GAMEPAD));
    InputMessageIsSerialization(HID_ID_GAMEPAD, p);
  }

  /** A close whose drain or first write fails lands no destroy: nothing after it is behind one. */
  lemma RefusedCloseLandsNothing(e: C.Env, s: Session, id: u16)
    requires !FirstLands(e, s.writer)
    ensures !DestroyLands(e, s, id)
  {
    hide C.FlushNow;
    LandedOrNot(e, s.writer, |Destroys(s.dev)|);
  }
}
